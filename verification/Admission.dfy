/**
 dynamic/driver.py: the id and reference passes of `validate_emitted_subgraph`, the leaves of a
 subgraph, and what admission guarantees about the stages after it: of the compiler's checks on
 ids, references and cycles, an admitted and forwarded subgraph can fail one only, that the ids
 made up while forwarding stay apart from the others.
 */
module Admission {
  import opened Digraph
  import opened Sequences
  import opened BoundIds
  import opened References
  import opened Forwarding
  import W = Workflow

  const INPUT_NODE_ID := "Symbols"

  const FIXED_ROUND_NODE_IDS: set<Id> := {INPUT_NODE_ID, "observation", "proposer"}

  /** The op types whose output can be archived. */
  const OUTPUT_SOURCE_OPS: set<string> := {
    "LLMChatOp", "LLMVisionOp", "ImageGenerationOp", "EmbeddingOp", "DataRetrievalOp"
  }

  datatype AdmissionError =
    | TooManyOps | NoOps
    | EmptyId(index: nat) | ReservedId(id: Id) | ExistingId(id: Id) | RepeatedId(id: Id) | BadOpType(id: Id)
    | ForeignExport(id: Id)
    | ResultUnavailable(id: Id) | UnknownRef(id: Id) | ForwardRef(id: Id)
    | LeafNotArchivable(id: Id)

  // ----- what is admitted --------------------------------------------------------------

  ghost predicate GoodIds(subgraph: seq<PlanOp>, registered: set<Id>) {
    && (forall op :: op in subgraph ==>
          op.id != "" && op.id !in FIXED_ROUND_NODE_IDS && op.id !in registered && op.kind in W.SUPPORTED_OPS)
    && (forall i, j :: 0 <= i < j < |subgraph| ==> subgraph[i].id != subgraph[j].id)
  }

  ghost predicate EarlierIn(subgraph: seq<PlanOp>, i: int, ref: Id) {
    exists j :: 0 <= j < i && j < |subgraph| && subgraph[j].id == ref
  }

  /** A reference is the run's input, an earlier round's op with a result, or an earlier op of this round. */
  ghost predicate GoodRef(subgraph: seq<PlanOp>, i: int, ref: Id, registered: set<Id>, available: set<Id>) {
    || ref == INPUT_NODE_ID
    || (ref in registered && ref in available)
    || (ref !in registered && EarlierIn(subgraph, i, ref))
  }

  ghost predicate GoodRefs(subgraph: seq<PlanOp>, registered: set<Id>, available: set<Id>) {
    forall i, ref :: 0 <= i < |subgraph| && ref in subgraph[i].inputs ==> GoodRef(subgraph, i, ref, registered, available)
  }

  function Consumed(subgraph: seq<PlanOp>): set<Id> {
    set op, ref | op in subgraph && ref in op.inputs :: ref
  }

  ghost predicate Admissible(
    subgraph: seq<PlanOp>, registered: set<Id>, maxNodes: nat, exports: seq<Id>, available: set<Id>)
  {
    && 0 < |subgraph| <= maxNodes
    && GoodIds(subgraph, registered)
    && (forall e :: e in exports ==> e in OpIds(subgraph))
    && GoodRefs(subgraph, registered, available)
    && (forall op :: op in subgraph && op.id !in Consumed(subgraph) ==> op.kind in OUTPUT_SOURCE_OPS)
  }

  // ----- the passes ----------------------------------------------------------------------

  method CheckIds(subgraph: seq<PlanOp>, registered: set<Id>) returns (ids: set<Id>, error: Option<AdmissionError>)
    ensures error.None? <==> GoodIds(subgraph, registered)
    ensures error.None? ==> ids == OpIds(subgraph)
  {
    ids, error := {}, None;
    for i := 0 to |subgraph|
      invariant ids == OpIds(subgraph[..i]) && GoodIds(subgraph[..i], registered)
    {
      var op := subgraph[i];
      assert op in subgraph;
      if op.id == "" {
        return ids, Some(EmptyId(i));
      }
      if op.id in FIXED_ROUND_NODE_IDS {
        return ids, Some(ReservedId(op.id));
      }
      if op.id in registered {
        return ids, Some(ExistingId(op.id));
      }
      if op.id in ids {
        ghost var other :| other in subgraph[..i] && other.id == op.id;
        return ids, Some(RepeatedId(op.id));
      }
      assert subgraph[..i + 1] == subgraph[..i] + [op];
      ids := ids + {op.id};
      if op.kind !in W.SUPPORTED_OPS {
        return ids, Some(BadOpType(op.id));
      }
      assert forall k :: 0 <= k < i ==> subgraph[k] in subgraph[..i];
    }
    assert subgraph[..|subgraph|] == subgraph;
  }

  method CheckRefs(subgraph: seq<PlanOp>, ids: set<Id>, registered: set<Id>, available: set<Id>)
    returns (error: Option<AdmissionError>)
    requires ids == OpIds(subgraph)
    ensures error.None? <==> GoodRefs(subgraph, registered, available)
  {
    var seen: set<Id> := {};
    for i := 0 to |subgraph|
      invariant forall ref :: ref in seen <==> EarlierIn(subgraph, i, ref)
      invariant forall k, ref :: 0 <= k < i && ref in subgraph[k].inputs ==> GoodRef(subgraph, k, ref, registered, available)
    {
      var op := subgraph[i];
      for j := 0 to |op.inputs|
        invariant forall ref :: ref in op.inputs[..j] ==> GoodRef(subgraph, i, ref, registered, available)
      {
        var ref := op.inputs[j];
        assert ref in op.inputs;
        if ref != INPUT_NODE_ID {
          if ref in registered {
            if ref !in available {
              assert !GoodRef(subgraph, i, ref, registered, available);
              return Some(ResultUnavailable(ref));
            }
          } else if ref !in ids {
            SeenIsEmitted(subgraph, i, ref);
            return Some(UnknownRef(ref));
          } else if ref !in seen {
            assert !GoodRef(subgraph, i, ref, registered, available);
            return Some(ForwardRef(ref));
          }
        }
      }
      assert op.inputs[..|op.inputs|] == op.inputs;
      seen := seen + {op.id};
      SeenGrows(subgraph, i);
    }
    return None;
  }

  lemma SeenIsEmitted(subgraph: seq<PlanOp>, i: nat, ref: Id)
    requires i <= |subgraph|
    ensures EarlierIn(subgraph, i, ref) ==> ref in OpIds(subgraph)
  {
  }

  lemma SeenGrows(subgraph: seq<PlanOp>, i: nat)
    requires i < |subgraph|
    ensures forall ref :: EarlierIn(subgraph, i + 1, ref) <==> EarlierIn(subgraph, i, ref) || ref == subgraph[i].id
  {
    forall ref ensures EarlierIn(subgraph, i + 1, ref) <==> EarlierIn(subgraph, i, ref) || ref == subgraph[i].id {
      if EarlierIn(subgraph, i + 1, ref) {
        var j :| 0 <= j < i + 1 && subgraph[j].id == ref;
      }
    }
  }

  method CollectConsumed(subgraph: seq<PlanOp>) returns (consumed: set<Id>)
    ensures consumed == Consumed(subgraph)
  {
    consumed := {};
    for i := 0 to |subgraph|
      invariant consumed == Consumed(subgraph[..i])
    {
      assert subgraph[..i + 1] == subgraph[..i] + [subgraph[i]];
      consumed := consumed + Elems(subgraph[i].inputs);
    }
    assert subgraph[..|subgraph|] == subgraph;
  }

  /** `validate_emitted_subgraph`, on ids, exports, references and leaves. */
  method ValidateEmittedSubgraph(
    subgraph: seq<PlanOp>, registered: set<Id>, maxNodes: nat, exports: seq<Id>, available: set<Id>)
    returns (error: Option<AdmissionError>)
    ensures error.None? <==> Admissible(subgraph, registered, maxNodes, exports, available)
  {
    if |subgraph| > maxNodes {
      return Some(TooManyOps);
    }
    if subgraph == [] {
      return Some(NoOps);
    }
    var ids;
    ids, error := CheckIds(subgraph, registered);
    if error.Some? {
      return;
    }
    for k := 0 to |exports|
      invariant forall e :: e in exports[..k] ==> e in OpIds(subgraph)
    {
      assert exports[k] in exports;
      if exports[k] !in ids {
        return Some(ForeignExport(exports[k]));
      }
    }
    assert exports[..|exports|] == exports;
    error := CheckRefs(subgraph, ids, registered, available);
    if error.Some? {
      return;
    }
    var consumed := CollectConsumed(subgraph);
    for k := 0 to |subgraph|
      invariant forall op :: op in subgraph[..k] && op.id !in consumed ==> op.kind in OUTPUT_SOURCE_OPS
    {
      assert subgraph[k] in subgraph;
      if subgraph[k].id !in consumed && subgraph[k].kind !in OUTPUT_SOURCE_OPS {
        return Some(LeafNotArchivable(subgraph[k].id));
      }
    }
    assert subgraph[..|subgraph|] == subgraph;
  }

  // ----- leaves ---------------------------------------------------------------------------

  /** `_current_leaves` */
  method CurrentLeaves(subgraph: seq<PlanOp>) returns (leaves: seq<Id>)
    ensures forall id :: id in leaves <==> IsLeaf(subgraph, id)
    ensures GoodIds(subgraph, {}) ==> NoDup(leaves)
  {
    var consumed := CollectConsumed(subgraph);
    leaves := [];
    for i := 0 to |subgraph|
      invariant forall id :: id in leaves <==> exists k :: 0 <= k < i && subgraph[k].id == id && id !in consumed
      invariant GoodIds(subgraph, {}) ==> NoDup(leaves)
    {
      if subgraph[i].id !in consumed {
        leaves := leaves + [subgraph[i].id];
      }
    }
    forall id ensures id in leaves <==> IsLeaf(subgraph, id) {
      if IsLeaf(subgraph, id) {
        var op :| op in subgraph && op.id == id;
      }
    }
  }

  ghost predicate IsLeaf(subgraph: seq<PlanOp>, id: Id) {
    id in OpIds(subgraph) && id !in Consumed(subgraph)
  }

  // ----- admission makes compilation safe ---------------------------------------------------

  function Entry(op: PlanOp): W.OpEntry {
    W.OpEntry(op.id, op.kind, op.inputs)
  }

  function Entries(ops: seq<PlanOp>): (r: seq<W.OpEntry>)
    ensures |r| == |ops| && forall i :: 0 <= i < |r| ==> r[i] == Entry(ops[i])
  {
    seq(|ops|, i requires 0 <= i < |ops| => Entry(ops[i]))
  }

  /** The workflow that `build_round` hands to the compiler. */
  function RoundInputs(f: Forwarded): set<Id> {
    {INPUT_NODE_ID} + f.inputs.Keys
  }

  function RoundOps(f: Forwarded): seq<W.OpEntry> {
    Entries(f.ops + f.decoders)
  }

  /** The nodes of earlier rounds; `build_round` runs with the round's own ops registered too. */
  function Prior(registry: map<Id, PlanOp>, subgraph: seq<PlanOp>): set<Id> {
    registry.Keys - OpIds(subgraph)
  }

  /** A round that was admitted against what is registered and stored, and then forwarded. */
  ghost predicate AdmittedRound(
    st: Store, subgraph: seq<PlanOp>, maxNodes: nat, exports: seq<Id>, f: Forwarded,
    origins: map<Id, Origin>, decoded: seq<(Id, string)>)
  {
    && Admissible(subgraph, Prior(st.configs, subgraph), maxNodes, exports, st.results.Keys)
    && st.results.Keys <= Prior(st.configs, subgraph) && st.configs.Keys !! FIXED_ROUND_NODE_IDS
    && IsForwarding(st, subgraph, f, origins, decoded)
  }

  /**
   The ids made up for the round's references stay apart: no op is named like a bound input or
   a decoder, and no decoder like a bound input.
   */
  ghost predicate NamesApart(st: Store, subgraph: seq<PlanOp>) {
    var bound, decoders := BoundKeys(st, RoundRefs(subgraph)), DecoderIds(st, RoundRefs(subgraph));
    OpIds(subgraph) !! bound && OpIds(subgraph) !! decoders && decoders !! bound
  }

  // ----- ids ----------------------------------------------------------------------------------

  lemma OpIdsKept(st: Store, subgraph: seq<PlanOp>, f: Forwarded, origins: map<Id, Origin>, decoded: seq<(Id, string)>)
    requires IsForwarding(st, subgraph, f, origins, decoded)
    ensures forall i :: 0 <= i < |subgraph| ==> f.ops[i].id == subgraph[i].id && f.ops[i].kind == subgraph[i].kind
    ensures OpIds(f.ops) == OpIds(subgraph)
  {
    forall i | 0 <= i < |subgraph| ensures f.ops[i].id == subgraph[i].id && f.ops[i].kind == subgraph[i].kind {
      assert RoundOpForwarded(st, subgraph, f.ops, i);
    }
    forall id ensures id in OpIds(f.ops) <==> id in OpIds(subgraph) {
      if id in OpIds(f.ops) {
        var op :| op in f.ops && op.id == id;
        var i :| 0 <= i < |f.ops| && f.ops[i] == op;
        assert subgraph[i] in subgraph;
      }
      if id in OpIds(subgraph) {
        var op :| op in subgraph && op.id == id;
        var i :| 0 <= i < |subgraph| && subgraph[i] == op;
        assert f.ops[i] in f.ops;
      }
    }
  }

  lemma DecodersDistinct(st: Store, f: Forwarded, decoded: seq<(Id, string)>, sources: set<Origin>)
    requires DecodersRight(st, f.inputs.Keys, f.decoders, decoded, sources)
    ensures forall i, j :: 0 <= i < j < |f.decoders| ==> f.decoders[i].id != f.decoders[j].id
    ensures forall i :: 0 <= i < |f.decoders| ==>
              f.decoders[i].kind in W.SUPPORTED_OPS && f.decoders[i].id != INPUT_NODE_ID
  {
    forall i, j | 0 <= i < j < |f.decoders| ensures f.decoders[i].id != f.decoders[j].id {
      assert DecoderRight(st, f.inputs.Keys, f.decoders, decoded, sources, i);
      assert DecoderRight(st, f.inputs.Keys, f.decoders, decoded, sources, j);
      if f.decoders[i].id == f.decoders[j].id {
        MaterializerInjective(decoded[i].0, decoded[i].1, decoded[j].0, decoded[j].1);
      }
    }
    forall i | 0 <= i < |f.decoders|
      ensures f.decoders[i].kind in W.SUPPORTED_OPS && f.decoders[i].id != INPUT_NODE_ID
    {
      assert DecoderRight(st, f.inputs.Keys, f.decoders, decoded, sources, i);
      InputIdHasSep(decoded[i].0, decoded[i].1);
      SymbolsIsClean();
    }
  }

  lemma SymbolsIsClean()
    ensures SepFree(INPUT_NODE_ID)
  {
    assert forall i :: 0 <= i < |INPUT_NODE_ID| ==> INPUT_NODE_ID[i] != ' ';
  }

  /** What the compiler's registration sees, list by list. */
  lemma RegisterApart(f: Forwarded)
    requires forall i :: 0 <= i < |f.ops| ==> f.ops[i].id != INPUT_NODE_ID && f.ops[i].kind in W.SUPPORTED_OPS
    requires forall i :: 0 <= i < |f.decoders| ==> f.decoders[i].id != INPUT_NODE_ID && f.decoders[i].kind in W.SUPPORTED_OPS
    requires forall i, j :: 0 <= i < j < |f.ops| ==> f.ops[i].id != f.ops[j].id
    requires forall i, j :: 0 <= i < j < |f.decoders| ==> f.decoders[i].id != f.decoders[j].id
    ensures W.IdsRegister(RoundInputs(f), RoundOps(f)) <==>
              OpIds(f.ops) !! f.inputs.Keys && OpIds(f.ops) !! OpIds(f.decoders) && OpIds(f.decoders) !! f.inputs.Keys
  {
    if W.IdsRegister(RoundInputs(f), RoundOps(f)) {
      RegisteredApart(f);
    }
    if OpIds(f.ops) !! f.inputs.Keys && OpIds(f.ops) !! OpIds(f.decoders) && OpIds(f.decoders) !! f.inputs.Keys {
      ApartRegisters(f);
    }
  }

  lemma RegisteredApart(f: Forwarded)
    requires W.IdsRegister(RoundInputs(f), RoundOps(f))
    ensures OpIds(f.ops) !! f.inputs.Keys && OpIds(f.ops) !! OpIds(f.decoders) && OpIds(f.decoders) !! f.inputs.Keys
  {
    IdsOfRound(f);
    forall id | id in OpIds(f.ops) + OpIds(f.decoders) ensures id !in f.inputs {
      OpIdIsNoInput(f, id);
    }
    forall id | id in OpIds(f.ops) ensures id !in OpIds(f.decoders) {
      var op :| op in f.ops && op.id == id;
      var i :| 0 <= i < |f.ops| && f.ops[i] == op;
      OpIsNoDecoder(f, i);
    }
  }

  lemma ApartRegisters(f: Forwarded)
    requires forall i :: 0 <= i < |f.ops| ==> f.ops[i].id != INPUT_NODE_ID && f.ops[i].kind in W.SUPPORTED_OPS
    requires forall i :: 0 <= i < |f.decoders| ==> f.decoders[i].id != INPUT_NODE_ID && f.decoders[i].kind in W.SUPPORTED_OPS
    requires forall i, j :: 0 <= i < j < |f.ops| ==> f.ops[i].id != f.ops[j].id
    requires forall i, j :: 0 <= i < j < |f.decoders| ==> f.decoders[i].id != f.decoders[j].id
    requires OpIds(f.ops) !! f.inputs.Keys && OpIds(f.ops) !! OpIds(f.decoders) && OpIds(f.decoders) !! f.inputs.Keys
    ensures W.IdsRegister(RoundInputs(f), RoundOps(f))
  {
    var ops, entries, n := f.ops + f.decoders, RoundOps(f), |f.ops|;
    forall i | 0 <= i < |ops|
      ensures entries[i].id in (if i < n then OpIds(f.ops) else OpIds(f.decoders))
      ensures entries[i].id == (if i < n then f.ops[i] else f.decoders[i - n]).id
    {
      if i < n {
        assert f.ops[i] in f.ops;
      } else {
        assert f.decoders[i - n] in f.decoders;
      }
    }
    forall i, j | 0 <= i < j < |ops| ensures entries[i].id != entries[j].id {
    }
    forall e | e in entries ensures e.id !in RoundInputs(f) && e.kind in W.SUPPORTED_OPS {
      var i :| 0 <= i < |ops| && e == Entry(ops[i]);
      if i >= n {
        assert ops[i] == f.decoders[i - n];
      }
    }
  }

  /** The ids of an admitted round register exactly when its names stay apart. */
  lemma RoundIdsRegister(
    st: Store, subgraph: seq<PlanOp>, maxNodes: nat, exports: seq<Id>, f: Forwarded,
    origins: map<Id, Origin>, decoded: seq<(Id, string)>)
    requires AdmittedRound(st, subgraph, maxNodes, exports, f, origins, decoded)
    ensures W.IdsRegister(RoundInputs(f), RoundOps(f)) <==> NamesApart(st, subgraph)
  {
    OpIdsKept(st, subgraph, f, origins, decoded);
    DecodersOfRound(st, subgraph, f, origins, decoded);
    DecodersDistinct(st, f, decoded, Origins(st, RoundRefs(subgraph)));
    forall i | 0 <= i < |f.ops| ensures f.ops[i].id != INPUT_NODE_ID && f.ops[i].kind in W.SUPPORTED_OPS {
      assert subgraph[i] in subgraph;
    }
    RegisterApart(f);
  }

  lemma IdsOfRound(f: Forwarded)
    ensures W.IdsOf(RoundOps(f)) == OpIds(f.ops) + OpIds(f.decoders)
  {
    var ops := f.ops + f.decoders;
    forall id | id in OpIds(f.ops) + OpIds(f.decoders) ensures id in W.IdsOf(RoundOps(f)) {
      var op :| op in ops && op.id == id;
      var i :| 0 <= i < |ops| && ops[i] == op;
      assert RoundOps(f)[i] in RoundOps(f);
    }
  }

  lemma ReadingOp(f: Forwarded, b: Id, a: Id) returns (i: nat)
    requires W.Reads(RoundOps(f), b, a)
    ensures i < |f.ops + f.decoders| && (f.ops + f.decoders)[i].id == b && a in (f.ops + f.decoders)[i].inputs
  {
    var ops, entries := f.ops + f.decoders, RoundOps(f);
    var e :| e in entries && e.id == b && a in e.inputs;
    i :| 0 <= i < |ops| && e == Entry(ops[i]);
  }

  lemma OpIdIsNoInput(f: Forwarded, a: Id)
    requires W.IdsRegister(RoundInputs(f), RoundOps(f)) && a in W.IdsOf(RoundOps(f))
    ensures a !in RoundInputs(f)
  {
    var d :| d in RoundOps(f) && d.id == a;
  }

  lemma DistinctOps(f: Forwarded)
    requires W.DistinctIds(RoundOps(f))
    ensures forall k, l :: 0 <= k < l < |f.ops| ==> f.ops[k].id != f.ops[l].id
  {
    assert forall k :: 0 <= k < |f.ops| ==> RoundOps(f)[k].id == f.ops[k].id;
  }

  lemma OpIsNoDecoder(f: Forwarded, i: nat)
    requires W.DistinctIds(RoundOps(f)) && i < |f.ops|
    ensures f.ops[i].id !in OpIds(f.decoders)
  {
    forall j | 0 <= j < |f.decoders| ensures f.decoders[j].id != f.ops[i].id {
      assert RoundOps(f)[i].id != RoundOps(f)[|f.ops| + j].id;
    }
  }

  // ----- references ---------------------------------------------------------------------------

  lemma LiveRefLeads(
    st: Store, subgraph: seq<PlanOp>, f: Forwarded, origins: map<Id, Origin>, decoded: seq<(Id, string)>, i: nat, k: nat)
    requires IsForwarding(st, subgraph, f, origins, decoded)
    requires i < |subgraph| && k < |subgraph[i].inputs|
    requires subgraph[i].inputs[k] in st.results && subgraph[i].inputs[k] in st.configs
    ensures ForwardedRef(st, subgraph[i].inputs[k]) in f.inputs || ForwardedRef(st, subgraph[i].inputs[k]) in OpIds(f.decoders)
  {
    DecodersOfRound(st, subgraph, f, origins, decoded);
    RoundRefsHas(subgraph, i, k);
    RewrittenIsProvided(st, subgraph, Implicit(subgraph[i].inputs[k], false));
  }

  /** Where a forwarded reference of the i-th op can lead: an input, a decoder, or an earlier op. */
  lemma ForwardedRefLeads(
    st: Store, subgraph: seq<PlanOp>, maxNodes: nat, exports: seq<Id>, f: Forwarded,
    origins: map<Id, Origin>, decoded: seq<(Id, string)>, i: nat, ref: Id)
    requires AdmittedRound(st, subgraph, maxNodes, exports, f, origins, decoded)
    requires i < |f.ops| && ref in f.ops[i].inputs
    ensures ref in RoundInputs(f) || ref in OpIds(f.decoders) || EarlierIn(f.ops, i, ref)
  {
    assert RoundOpForwarded(st, subgraph, f.ops, i);
    var k :| 0 <= k < |f.ops[i].inputs| && f.ops[i].inputs[k] == ref;
    var before := subgraph[i].inputs[k];
    assert GoodRef(subgraph, i, before, Prior(st.configs, subgraph), st.results.Keys);
    if before in st.results {
      LiveRefLeads(st, subgraph, f, origins, decoded, i, k);
    } else if before != INPUT_NODE_ID {
      var j :| 0 <= j < i && subgraph[j].id == before;
      assert RoundOpForwarded(st, subgraph, f.ops, j);
      assert f.ops[j].id == ref;
    }
  }

  lemma DecoderReadsInputs(st: Store, f: Forwarded, decoded: seq<(Id, string)>, sources: set<Origin>, i: nat)
    requires DecodersRight(st, f.inputs.Keys, f.decoders, decoded, sources) && i < |f.decoders|
    ensures forall ref :: ref in f.decoders[i].inputs ==> ref in f.inputs
  {
    assert DecoderRight(st, f.inputs.Keys, f.decoders, decoded, sources, i);
  }

  lemma RoundRefsKnown(
    st: Store, subgraph: seq<PlanOp>, maxNodes: nat, exports: seq<Id>, f: Forwarded,
    origins: map<Id, Origin>, decoded: seq<(Id, string)>)
    requires AdmittedRound(st, subgraph, maxNodes, exports, f, origins, decoded)
    ensures W.RefsKnown(RoundInputs(f), RoundOps(f))
  {
    IdsOfRound(f);
    forall i, ref | 0 <= i < |f.ops| && ref in f.ops[i].inputs
      ensures ref in RoundInputs(f) || ref in W.IdsOf(RoundOps(f))
    {
      ForwardedRefLeads(st, subgraph, maxNodes, exports, f, origins, decoded, i, ref);
      SeenIsEmitted(f.ops, i, ref);
    }
    forall i, ref | 0 <= i < |f.decoders| && ref in f.decoders[i].inputs ensures ref in RoundInputs(f) {
      DecoderReadsInputs(st, f, decoded, Origins(st, RoundRefs(subgraph)), i);
    }
    EntriesRefsKnown(f);
  }

  lemma EntriesRefsKnown(f: Forwarded)
    requires forall i, ref :: 0 <= i < |f.ops| && ref in f.ops[i].inputs ==>
      ref in RoundInputs(f) || ref in W.IdsOf(RoundOps(f))
    requires forall i, ref :: 0 <= i < |f.decoders| && ref in f.decoders[i].inputs ==> ref in RoundInputs(f)
    ensures W.RefsKnown(RoundInputs(f), RoundOps(f))
  {
    var ops := f.ops + f.decoders;
    forall e, ref | e in RoundOps(f) && ref in e.inputs
      ensures ref in RoundInputs(f) || ref in W.IdsOf(RoundOps(f))
    {
      var i :| 0 <= i < |ops| && e == Entry(ops[i]);
      if i >= |f.ops| {
        assert ops[i] == f.decoders[i - |f.ops|];
      }
    }
  }

  /** Decoders first, then the ops in emission order: a rank that every reference climbs. */
  ghost function RoundRank(f: Forwarded): map<Id, nat> {
    map id | id in OpIds(f.ops) + OpIds(f.decoders) :: if id in OpIds(f.decoders) then 0 else 1 + Position(f.ops, id)
  }

  ghost function Position(ops: seq<PlanOp>, id: Id): (n: nat)
    ensures n <= |ops|
    ensures id in OpIds(ops) ==> n < |ops| && ops[n].id == id
  {
    if ops == [] then 0
    else if ops[0].id == id then 0
    else
      assert ops == [ops[0]] + ops[1..];
      1 + Position(ops[1..], id)
  }

  lemma {:induction false} PositionIs(ops: seq<PlanOp>, i: nat)
    requires i < |ops| && forall k, l :: 0 <= k < l < |ops| ==> ops[k].id != ops[l].id
    ensures Position(ops, ops[i].id) == i
  {
    assert ops[i] in ops;
    var n := Position(ops, ops[i].id);
    assert ops[i].id in OpIds(ops);
  }

  /** An op's reference is to a decoder, which ranks first, or to an op before it. */
  lemma OpRefClimbs(
    st: Store, subgraph: seq<PlanOp>, maxNodes: nat, exports: seq<Id>, f: Forwarded,
    origins: map<Id, Origin>, decoded: seq<(Id, string)>, i: nat, a: Id)
    requires AdmittedRound(st, subgraph, maxNodes, exports, f, origins, decoded)
    requires W.DistinctIds(RoundOps(f)) && i < |f.ops| && a in f.ops[i].inputs && a !in RoundInputs(f)
    ensures a in RoundRank(f) && f.ops[i].id in RoundRank(f) && RoundRank(f)[a] < RoundRank(f)[f.ops[i].id]
  {
    assert f.ops[i] in f.ops;
    ForwardedRefLeads(st, subgraph, maxNodes, exports, f, origins, decoded, i, a);
    OpIsNoDecoder(f, i);
    DistinctOps(f);
    PositionIs(f.ops, i);
    if a !in OpIds(f.decoders) {
      var j :| 0 <= j < i && f.ops[j].id == a;
      assert f.ops[j] in f.ops;
      PositionIs(f.ops, j);
    }
  }

  lemma RoundRefClimbs(
    st: Store, subgraph: seq<PlanOp>, maxNodes: nat, exports: seq<Id>, f: Forwarded,
    origins: map<Id, Origin>, decoded: seq<(Id, string)>, a: Id, b: Id)
    requires AdmittedRound(st, subgraph, maxNodes, exports, f, origins, decoded)
    requires W.IdsRegister(RoundInputs(f), RoundOps(f))
    requires a in W.IdsOf(RoundOps(f)) && W.Reads(RoundOps(f), b, a)
    ensures a in RoundRank(f) && b in RoundRank(f) && RoundRank(f)[a] < RoundRank(f)[b]
  {
    var i := ReadingOp(f, b, a);
    OpIdIsNoInput(f, a);
    if i < |f.ops| {
      OpRefClimbs(st, subgraph, maxNodes, exports, f, origins, decoded, i, a);
    } else {
      DecoderReadsInputs(st, f, decoded, Origins(st, RoundRefs(subgraph)), i - |f.ops|);
    }
  }

  /**
   Admission soundness: of all the compiler's checks on ids, references and cycles, an admitted
   and forwarded round can fail one only, that made-up ids stay apart, and it fails exactly then.
   */
  lemma AdmittedRoundCompiles(
    st: Store, subgraph: seq<PlanOp>, maxNodes: nat, exports: seq<Id>, f: Forwarded,
    origins: map<Id, Origin>, decoded: seq<(Id, string)>)
    requires AdmittedRound(st, subgraph, maxNodes, exports, f, origins, decoded)
    ensures W.Compiles(RoundInputs(f), RoundOps(f)) <==> NamesApart(st, subgraph)
  {
    RoundIdsRegister(st, subgraph, maxNodes, exports, f, origins, decoded);
    RoundRefsKnown(st, subgraph, maxNodes, exports, f, origins, decoded);
    if W.IdsRegister(RoundInputs(f), RoundOps(f)) {
      var g := W.RefGraph(RoundOps(f));
      forall a, b | Edge(g, a, b) ensures a in RoundRank(f) && b in RoundRank(f) && RoundRank(f)[a] < RoundRank(f)[b] {
        W.RefEdge(RoundOps(f), a, b);
        RoundRefClimbs(st, subgraph, maxNodes, exports, f, origins, decoded, a, b);
      }
      RankedIsAcyclic(g, RoundRank(f));
    }
  }

  lemma SomeKey(decoded: seq<(Id, string)>)
    ensures decoded != [] ==> KeysOf(decoded) != {}
  {
    if decoded != [] {
      assert DecodedKey(decoded[0]) in KeysOf(decoded);
    }
  }

  /** A round without ops binds nothing and compiles. */
  lemma EmptyRoundCompiles(st: Store, f: Forwarded, origins: map<Id, Origin>, decoded: seq<(Id, string)>)
    requires IsForwarding(st, [], f, origins, decoded)
    ensures W.Compiles(RoundInputs(f), RoundOps(f)) && NamesApart(st, []) && RoundOps(f) == []
  {
    SomeKey(decoded);
    assert RoundOps(f) == [];
    RankedIsAcyclic(W.RefGraph(RoundOps(f)), map[]);
  }

  /** The compiled round holds the round's own ops and decoders and nothing else; no own op has run before. */
  lemma RoundRecomputesNothing(
    st: Store, subgraph: seq<PlanOp>, f: Forwarded, origins: map<Id, Origin>, decoded: seq<(Id, string)>)
    requires IsForwarding(st, subgraph, f, origins, decoded)
    ensures W.IdsOf(RoundOps(f)) == OpIds(subgraph) + DecoderIds(st, RoundRefs(subgraph))
    ensures OpIds(subgraph) !! Prior(st.configs, subgraph)
    ensures W.IdsOf(RoundOps(f)) !! Prior(st.configs, subgraph) <==>
              DecoderIds(st, RoundRefs(subgraph)) !! Prior(st.configs, subgraph)
    ensures (forall id :: id in Prior(st.configs, subgraph) ==> SepFree(id)) ==>
              W.IdsOf(RoundOps(f)) !! Prior(st.configs, subgraph)
  {
    IdsOfRound(f);
    OpIdsKept(st, subgraph, f, origins, decoded);
    DecodersOfRound(st, subgraph, f, origins, decoded);
    forall id | id in DecoderIds(st, RoundRefs(subgraph)) ensures !SepFree(id) {
      var ref, path := DecoderIdIs(st, RoundRefs(subgraph), id);
      InputIdHasSep(ref, path);
    }
  }

  lemma DecoderIdIs(st: Store, refs: seq<Reference>, id: Id) returns (ref: Id, path: string)
    requires id in DecoderIds(st, refs)
    ensures At(ref, path) in Origins(st, refs) && id == MaterializerId(ref, path)
  {
    var k :| k in DecodedKeys(st, refs) && id == k + ROWS;
    var i :| 0 <= i < |refs| && AddsDecoder(st, refs, i) && KeyFor(st, refs[i]) == k;
    ref, path := refs[i].ref, PathFor(st, refs[i]);
    assert OriginFor(st, refs[i]) == At(ref, path);
  }

  // ----- clean names -----------------------------------------------------------------------------

  /** Op ids and forwarded ids hold no separator, and forwarded paths are result paths. */
  ghost predicate CleanNames(st: Store, subgraph: seq<PlanOp>) {
    && (forall op :: op in subgraph ==> SepFree(op.id))
    && (forall o :: o in Origins(st, RoundRefs(subgraph)) ==> SepFree(o.ref) && (o.At? ==> GoodPath(o.path)))
  }

  /** Clean names keep made-up ids apart, and let each stand for one reference only. */
  lemma CleanNamesApart(st: Store, subgraph: seq<PlanOp>)
    requires CleanNames(st, subgraph) && OpIds(subgraph) !! st.results.Keys
    ensures NamesApart(st, subgraph) && KeysDetermine(st, RoundRefs(subgraph))
  {
    var refs := RoundRefs(subgraph);
    forall k | k in BoundKeys(st, refs) ensures k !in OpIds(subgraph) && k !in DecoderIds(st, refs) {
      var o := BoundKeyIs(st, refs, k);
      if o.At? {
        InputIdHasSep(o.ref, o.path);
      }
      if k in DecoderIds(st, refs) {
        var ref, path := DecoderIdIs(st, refs, k);
        InputIdHasSep(ref, path);
        if o.At? {
          MaterializerIsNoInput(ref, path, o.ref, o.path);
        }
      }
    }
    forall k | k in DecoderIds(st, refs) ensures k !in OpIds(subgraph) {
      var ref, path := DecoderIdIs(st, refs, k);
      InputIdHasSep(ref, path);
    }
    forall o, p | o in Origins(st, refs) && p in Origins(st, refs) && KeyOf(o) == KeyOf(p) ensures o == p {
      CleanOriginIs(o, p);
    }
  }

  lemma BoundKeyIs(st: Store, refs: seq<Reference>, k: Id) returns (o: Origin)
    requires k in BoundKeys(st, refs)
    ensures o in Origins(st, refs) && KeyOf(o) == k && o.ref in st.results
  {
    var i :| 0 <= i < |refs| && Live(st, refs[i]) && KeyFor(st, refs[i]) == k;
    o := OriginFor(st, refs[i]);
  }

  lemma CleanOriginIs(o: Origin, p: Origin)
    requires SepFree(o.ref) && SepFree(p.ref) && KeyOf(o) == KeyOf(p)
    requires (o.At? ==> GoodPath(o.path)) && (p.At? ==> GoodPath(p.path))
    ensures o == p
  {
    match (o, p)
    case (At(r, a), At(q, b)) => InputIdInjective(r, a, q, b);
    case (At(r, a), Whole(_)) => InputIdHasSep(r, a);
    case (Whole(_), At(q, b)) => InputIdHasSep(q, b);
    case (Whole(_), Whole(_)) =>
  }

  /** With clean names an admitted and forwarded round always compiles. */
  lemma CleanRoundCompiles(
    st: Store, subgraph: seq<PlanOp>, maxNodes: nat, exports: seq<Id>, f: Forwarded,
    origins: map<Id, Origin>, decoded: seq<(Id, string)>)
    requires AdmittedRound(st, subgraph, maxNodes, exports, f, origins, decoded) && CleanNames(st, subgraph)
    ensures W.Compiles(RoundInputs(f), RoundOps(f))
  {
    CleanNamesApart(st, subgraph);
    AdmittedRoundCompiles(st, subgraph, maxNodes, exports, f, origins, decoded);
  }

  // ----- consumers read what they referred to -------------------------------------------------

  /** What stands behind the name a consumer reads: the texts of `o`, bound plainly or behind a decoder. */
  ghost predicate Delivers(st: Store, f: Forwarded, name: Id, o: Origin) {
    || (name in f.inputs && name !in OpIds(f.decoders) && HoldsTexts(st, o, f.inputs[name]))
    || (name !in f.inputs && exists d :: d in f.decoders && Decodes(st, f, d, name, o))
  }

  ghost predicate Decodes(st: Store, f: Forwarded, d: PlanOp, name: Id, o: Origin) {
    d.id == name && |d.inputs| == 1 && d.inputs[0] in f.inputs && HoldsTexts(st, o, f.inputs[d.inputs[0]])
  }

  /** Where ids determine references, a bound id holds the values of the very reference it was made for. */
  lemma BoundInputIsOwn(
    st: Store, subgraph: seq<PlanOp>, f: Forwarded, origins: map<Id, Origin>, decoded: seq<(Id, string)>, o: Origin)
    requires IsForwarding(st, subgraph, f, origins, decoded) && KeysDetermine(st, RoundRefs(subgraph))
    requires o in Origins(st, RoundRefs(subgraph))
    ensures KeyOf(o) in f.inputs && HoldsTexts(st, o, f.inputs[KeyOf(o)])
  {
    var refs := RoundRefs(subgraph);
    var i :| 0 <= i < |refs| && Live(st, refs[i]) && OriginFor(st, refs[i]) == o;
    assert KeyFor(st, refs[i]) in BoundKeys(st, refs);
    assert BoundRight(st, f.inputs, origins, Origins(st, refs), KeyOf(o));
  }

  /** A decoder's id leads to the input it decodes. */
  lemma DecoderDelivers(
    st: Store, subgraph: seq<PlanOp>, f: Forwarded, origins: map<Id, Origin>, decoded: seq<(Id, string)>, ref: Id, path: string)
    requires IsForwarding(st, subgraph, f, origins, decoded) && KeysDetermine(st, RoundRefs(subgraph))
    requires At(ref, path) in Origins(st, RoundRefs(subgraph)) && MaterializerId(ref, path) in DecoderIds(st, RoundRefs(subgraph))
    requires MaterializerId(ref, path) !in f.inputs
    ensures Delivers(st, f, MaterializerId(ref, path), At(ref, path))
  {
    DecodersOfRound(st, subgraph, f, origins, decoded);
    var d :| d in f.decoders && d.id == MaterializerId(ref, path);
    var i :| 0 <= i < |f.decoders| && f.decoders[i] == d;
    assert DecoderRight(st, f.inputs.Keys, f.decoders, decoded, Origins(st, RoundRefs(subgraph)), i);
    MaterializerInjective(decoded[i].0, decoded[i].1, ref, path);
    BoundInputIsOwn(st, subgraph, f, origins, decoded, At(ref, path));
    assert Decodes(st, f, d, d.id, At(ref, path));
  }

  /** Every forwarded `inputs` reference delivers the values of the op it named. */
  lemma ForwardedInputDelivers(
    st: Store, subgraph: seq<PlanOp>, f: Forwarded, origins: map<Id, Origin>, decoded: seq<(Id, string)>, i: nat, k: nat)
    requires IsForwarding(st, subgraph, f, origins, decoded)
    requires NamesApart(st, subgraph) && KeysDetermine(st, RoundRefs(subgraph))
    requires i < |subgraph| && k < |subgraph[i].inputs|
    requires subgraph[i].inputs[k] in st.results && subgraph[i].inputs[k] in st.configs
    ensures |f.ops[i].inputs| == |subgraph[i].inputs|
    ensures Delivers(st, f, f.ops[i].inputs[k], Whole(subgraph[i].inputs[k]))
  {
    var ref, refs := subgraph[i].inputs[k], RoundRefs(subgraph);
    var r := Implicit(ref, false);
    assert RoundOpForwarded(st, subgraph, f.ops, i);
    RoundRefsHas(subgraph, i, k);
    DecodersOfRound(st, subgraph, f, origins, decoded);
    assert OriginFor(st, r) in Origins(st, refs);
    RewrittenIsProvided(st, subgraph, r);
    if NeedsDecoder(st, r) {
      RewrittenIsDecoder(st, subgraph, r);
      DecoderDelivers(st, subgraph, f, origins, decoded, ref, PathFor(st, r));
      DecodedWhole(st, f, MaterializerId(ref, PathFor(st, r)), ref);
    } else {
      BoundInputIsOwn(st, subgraph, f, origins, decoded, Whole(ref));
    }
  }

  /** With several rows a whole result and its forward path hold the same texts. */
  lemma DecodedWhole(st: Store, f: Forwarded, name: Id, ref: Id)
    requires ref in st.configs && st.rows > 1 && Delivers(st, f, name, At(ref, st.configs[ref].forwardPath))
    ensures Delivers(st, f, name, Whole(ref))
  {
    var o := At(ref, st.configs[ref].forwardPath);
    if name !in f.inputs {
      var d :| d in f.decoders && Decodes(st, f, d, name, o);
      assert Decodes(st, f, d, name, Whole(ref));
    }
  }

  lemma RewrittenIsDecoder(st: Store, subgraph: seq<PlanOp>, r: Reference)
    requires r in RoundRefs(subgraph) && r.Implicit? && NeedsDecoder(st, r)
    ensures MaterializerId(r.ref, PathFor(st, r)) in DecoderIds(st, RoundRefs(subgraph))
  {
    var refs := RoundRefs(subgraph);
    var i :| 0 <= i < |refs| && refs[i] == r;
    assert AddsDecoder(st, refs, i);
    assert KeyFor(st, r) in DecodedKeys(st, refs);
  }

  /** The same for explicit references: columns and parameters. */
  lemma ForwardedColumnDelivers(
    st: Store, subgraph: seq<PlanOp>, f: Forwarded, origins: map<Id, Origin>, decoded: seq<(Id, string)>, i: nat, k: nat)
    requires IsForwarding(st, subgraph, f, origins, decoded)
    requires NamesApart(st, subgraph) && KeysDetermine(st, RoundRefs(subgraph))
    requires i < |subgraph| && k < |subgraph[i].columns| && subgraph[i].columns[k].node in st.results
    ensures |f.ops[i].columns| == |subgraph[i].columns|
    ensures var c := subgraph[i].columns[k];
      Delivers(st, f, f.ops[i].columns[k].node, At(c.node, c.path))
  {
    var op, c, refs := subgraph[i], subgraph[i].columns[k], RoundRefs(subgraph);
    var start := Implicits(op.inputs) + Implicits(op.formatRefs) + Images(op.imageSource);
    assert RoundOpForwarded(st, subgraph, f.ops, i);
    RoundRefsHas(subgraph, i, |start| + k);
    DecodersOfRound(st, subgraph, f, origins, decoded);
    var r := Explicit(c.node, c.path);
    assert r in refs && OriginFor(st, r) in Origins(st, refs);
    var seen := RoundRefs(subgraph[..i]) + Implicits(op.inputs) + Implicits(op.formatRefs) + Images(op.imageSource)
      + Explicits(op.columns[..k + 1]);
    ColumnSeen(subgraph, i, k);
    KeysGrow(st, seen, refs);
    BoundInputIsOwn(st, subgraph, f, origins, decoded, At(c.node, c.path));
    if InputId(c.node, c.path) in DecodedKeys(st, seen) {
      assert MaterializerId(c.node, c.path) in DecoderIds(st, refs);
      DecoderDelivers(st, subgraph, f, origins, decoded, c.node, c.path);
    }
  }

  lemma ColumnSeen(subgraph: seq<PlanOp>, i: nat, k: nat)
    requires i < |subgraph| && k < |subgraph[i].columns|
    ensures
      var op := subgraph[i];
      RoundRefs(subgraph[..i]) + Implicits(op.inputs) + Implicits(op.formatRefs) + Images(op.imageSource)
        + Explicits(op.columns[..k + 1]) <= RoundRefs(subgraph)
  {
    var op, before := subgraph[i], RoundRefs(subgraph[..i]);
    var start := Implicits(op.inputs) + Implicits(op.formatRefs) + Images(op.imageSource);
    var some := start + Explicits(op.columns[..k + 1]);
    assert Explicits(op.columns[..k + 1]) == Explicits(op.columns)[..k + 1];
    assert some <= RefsOfOp(op);
    RoundRefsSplit(subgraph, i);
    RoundRefsPrefix(subgraph, i + 1);
    assert before + Implicits(op.inputs) + Implicits(op.formatRefs) + Images(op.imageSource) + Explicits(op.columns[..k + 1])
        == before + some;
  }

  // ----- rounds whose names are not apart -----------------------------------------------------------

  /** The round is admissible and can be forwarded, yet no forwarding of it compiles. */
  ghost predicate FailsAfterAdmission(st: Store, subgraph: seq<PlanOp>) {
    && Admissible(subgraph, Prior(st.configs, subgraph), |subgraph|, [], st.results.Keys)
    && st.results.Keys <= Prior(st.configs, subgraph) && st.configs.Keys !! FIXED_ROUND_NODE_IDS
    && CanForwardFrom(st, RoundRefs(subgraph), 0)
    && forall f, origins, decoded {:trigger IsForwarding(st, subgraph, f, origins, decoded)} ::
         IsForwarding(st, subgraph, f, origins, decoded) ==> !W.Compiles(RoundInputs(f), RoundOps(f))
  }

  lemma FailsWhenNotApart(st: Store, subgraph: seq<PlanOp>)
    requires Admissible(subgraph, Prior(st.configs, subgraph), |subgraph|, [], st.results.Keys)
    requires st.results.Keys <= Prior(st.configs, subgraph) && st.configs.Keys !! FIXED_ROUND_NODE_IDS
    requires CanForwardFrom(st, RoundRefs(subgraph), 0) && !NamesApart(st, subgraph)
    ensures FailsAfterAdmission(st, subgraph)
  {
    forall f, origins, decoded {:trigger IsForwarding(st, subgraph, f, origins, decoded)}
      | IsForwarding(st, subgraph, f, origins, decoded) ensures !W.Compiles(RoundInputs(f), RoundOps(f))
    {
      AdmittedRoundCompiles(st, subgraph, |subgraph|, [], f, origins, decoded);
    }
  }

  lemma SharedIsNotApart(st: Store, subgraph: seq<PlanOp>, id: Id)
    requires id in BoundKeys(st, RoundRefs(subgraph)) && id in DecoderIds(st, RoundRefs(subgraph))
    ensures !NamesApart(st, subgraph)
  {
  }

  lemma OneOpAdmissible(op: PlanOp, ref: Id)
    requires op.id != "" && op.id !in FIXED_ROUND_NODE_IDS && op.id != ref && op.kind == "LLMChatOp" && op.inputs == [ref]
    ensures Admissible([op], {ref}, 1, [], {ref})
  {
    assert GoodRefs([op], {ref}, {ref});
  }

  lemma RoundOfOne(op: PlanOp)
    ensures RoundRefs([op]) == RefsOfOp(op)
  {
    assert [op][..0] == [];
    assert [] + RefsOfOp(op) == RefsOfOp(op);
  }

  lemma OneOpRefs(op: PlanOp, ref: Id)
    requires op.inputs == [ref] && op.formatRefs == [] && op.imageSource == None
    ensures RoundRefs([op]) == [Implicit(ref, false)] + Explicits(op.columns)
  {
    RoundOfOne(op);
    var first, none := Implicits(op.inputs), Implicits(op.formatRefs);
    assert first == [Implicit(ref, false)];
    assert none == [] && first + none == first && first + [] == first;
  }

  lemma OnlyPrior(st: Store, op: PlanOp, ref: Id)
    requires st.configs.Keys == {ref} && op.id != ref
    ensures Prior(st.configs, [op]) == {ref}
  {
    assert OpIds([op]) == {op.id};
  }

  lemma FixedIdsAreClean(id: Id)
    requires !SepFree(id)
    ensures id !in FIXED_ROUND_NODE_IDS
  {
    SymbolsIsClean();
    assert forall i :: 0 <= i < |"observation"| ==> "observation"[i] != ' ';
    assert forall i :: 0 <= i < |"proposer"| ==> "proposer"[i] != ' ';
    assert SepFree("observation") && SepFree("proposer");
  }

  /** An op whose id spells a bound input: admitted, forwarded, and refused by the compiler. */
  lemma SeparatorIdFailsToCompile(ref: Id, path: string) returns (st: Store, subgraph: seq<PlanOp>)
    requires ref != "" && ref !in FIXED_ROUND_NODE_IDS
    ensures FailsAfterAdmission(st, subgraph)
    ensures OpIds(subgraph) == {InputId(ref, path)}
  {
    var earlier := PlanOp(ref, "LLMChatOp", [], [], None, [], path);
    var op := PlanOp(InputId(ref, path), "LLMChatOp", [ref], [], None, [Column(ref, path)], OUTPUT_PATH);
    st := Store(map[ref := [map[path := Scalar("")]]], map[ref := earlier], 1);
    subgraph := [op];
    InputIdHasSep(ref, path);
    FixedIdsAreClean(op.id);
    assert |op.id| > |ref|;
    OneOpAdmissible(op, ref);
    OnlyPrior(st, op, ref);
    OneOpRefs(op, ref);
    var refs := [Implicit(ref, false), Explicit(ref, path)];
    assert Explicits(op.columns) == [refs[1]];
    assert RoundRefs(subgraph) == refs;
    SeparatorIdRound(st, refs, ref, path);
    FailsWhenNotApart(st, subgraph);
  }

  lemma SeparatorIdRound(st: Store, refs: seq<Reference>, ref: Id, path: string)
    requires refs == [Implicit(ref, false), Explicit(ref, path)]
    requires ref in st.results && ref in st.configs && st.configs[ref].forwardPath == path && st.rows == 1
    requires st.results[ref] == [map[path := Scalar("")]]
    ensures CanForwardFrom(st, refs, 0) && InputId(ref, path) in BoundKeys(st, refs)
  {
    assert refs[..0] == [] && refs[..1] == [refs[0]];
    assert CanForwardAt(st, refs, 0) && CanForwardAt(st, refs, 1);
    assert KeyFor(st, refs[1]) in BoundKeys(st, refs);
  }

  /** With the list at `path` and text at the longer path, one column adds a decoder and the other binds its id. */
  lemma RowsPathRound(st: Store, refs: seq<Reference>, ref: Id, path: string)
    requires refs == [Implicit(ref, false), Explicit(ref, path), Explicit(ref, path + ROWS)]
    requires IsRowsPathStore(st, ref, path)
    ensures CanForwardFrom(st, refs, 0)
    ensures MaterializerId(ref, path) in BoundKeys(st, refs) && MaterializerId(ref, path) in DecoderIds(st, refs)
  {
    RowsPathValues(st, ref, path);
    assert refs[..0] == [] && refs[..1] == [refs[0]] && refs[..2] == [refs[0], refs[1]];
    assert CanForwardAt(st, refs, 0) && CanForwardAt(st, refs, 1) && CanForwardAt(st, refs, 2);
    RowsPathCollides(ref, path);
    assert KeyFor(st, refs[2]) in BoundKeys(st, refs);
    RowsPathDecoder(st, refs, ref, path);
  }

  ghost predicate IsRowsPathStore(st: Store, ref: Id, path: string) {
    var item := map[path := Many([Scalar(""), Scalar("")], ""), path + ROWS := Scalar("")];
    && ref in st.results && ref in st.configs && st.configs[ref].forwardPath == path + ROWS && st.rows == 2
    && st.results[ref] == [item, item]
  }

  lemma RowsPathValues(st: Store, ref: Id, path: string)
    requires IsRowsPathStore(st, ref, path)
    ensures
      var items := st.results[ref];
      && AllFound(items, path) && AllFound(items, path + ROWS)
      && Grouped(RowValues(items, path)) && AllGrouped(RowValues(items, path))
      && !Grouped(RowValues(items, path + ROWS))
  {
    var items, list := st.results[ref], Many([Scalar(""), Scalar("")], "");
    assert |path + ROWS| != |path|;
    assert RowValues(items, path)[0] == list && RowValues(items, path)[1] == list;
    assert RowValues(items, path + ROWS)[0] == Scalar("") && RowValues(items, path + ROWS)[1] == Scalar("");
  }

  lemma RowsPathDecoder(st: Store, refs: seq<Reference>, ref: Id, path: string)
    requires |refs| > 1 && refs[0] == Implicit(ref, false) && refs[1] == Explicit(ref, path)
    requires NeedsDecoder(st, refs[1]) && !NeedsDecoder(st, refs[0])
    ensures MaterializerId(ref, path) in DecoderIds(st, refs)
  {
    assert |InputId(ref, path)| > |ref|;
    forall k | k in BoundKeys(st, refs[..1]) ensures k == ref {
    }
    assert AddsDecoder(st, refs, 1);
    assert KeyFor(st, refs[1]) in DecodedKeys(st, refs);
  }

  lemma RowsPathRefs(op: PlanOp, ref: Id, path: string)
    requires op.inputs == [ref] && op.formatRefs == [] && op.imageSource == None
    requires op.columns == [Column(ref, path), Column(ref, path + ROWS)]
    ensures RoundRefs([op]) == [Implicit(ref, false), Explicit(ref, path), Explicit(ref, path + ROWS)]
  {
    OneOpRefs(op, ref);
    assert Explicits(op.columns) == [Explicit(ref, path), Explicit(ref, path + ROWS)];
  }

  /** A path that ends in the decoder's suffix, read beside the path it decodes: admitted, forwarded, and refused. */
  lemma RowsPathFailsToCompile(ref: Id, path: string, id: Id) returns (st: Store, subgraph: seq<PlanOp>)
    requires ref !in FIXED_ROUND_NODE_IDS && id != "" && id !in FIXED_ROUND_NODE_IDS && id != ref
    ensures FailsAfterAdmission(st, subgraph)
    ensures OpIds(subgraph) == {id}
  {
    var earlier := PlanOp(ref, "LLMChatOp", [], [], None, [], path + ROWS);
    var list := Many([Scalar(""), Scalar("")], "");
    var item := map[path := list, path + ROWS := Scalar("")];
    var op := PlanOp(id, "LLMChatOp", [ref], [], None, [Column(ref, path), Column(ref, path + ROWS)], OUTPUT_PATH);
    st := Store(map[ref := [item, item]], map[ref := earlier], 2);
    subgraph := [op];
    OneOpAdmissible(op, ref);
    OnlyPrior(st, op, ref);
    RowsPathRefs(op, ref, path);
    RowsPathRound(st, RoundRefs(subgraph), ref, path);
    SharedIsNotApart(st, subgraph, MaterializerId(ref, path));
    FailsWhenNotApart(st, subgraph);
  }
}
