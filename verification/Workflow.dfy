/**
 parser/yaml_parser.py: `_compile_workflow`, reduced to ids and `inputs` references.
 Ids are registered first; then a pending loop emits every op whose references are resolved
 and gives up when a whole sweep makes no progress.
 */
module Workflow {
  import opened Digraph
  import opened Sequences

  type Id = string

  const SUPPORTED_OPS: set<string> := {
    "DataOp", "DataRetrievalOp", "MessageOp", "LLMChatOp", "LLMVisionOp",
    "ImageGenerationOp", "EmbeddingOp", "FormatOp", "LambdaOp"
  }

  datatype OpEntry = OpEntry(id: Id, kind: string, inputs: seq<Id>)

  datatype CompileError =
    | DuplicateId(id: Id)
    | UnsupportedOp(id: Id)
    | UnknownRef(id: Id)
    | CycleDetected(pending: set<Id>)

  function IdsOf(ops: seq<OpEntry>): (r: set<Id>)
    ensures forall id :: id in r <==> exists e :: e in ops && e.id == id
  {
    set e | e in ops :: e.id
  }

  // ----- what the compiler promises ----------------------------------------------------

  ghost predicate DistinctIds(ops: seq<OpEntry>) {
    forall i, j :: 0 <= i < j < |ops| ==> ops[i].id != ops[j].id
  }

  /** Ids name one thing: an input or one op of a supported type. */
  ghost predicate IdsRegister(inputs: set<Id>, ops: seq<OpEntry>) {
    && DistinctIds(ops)
    && forall e :: e in ops ==> e.id !in inputs && e.kind in SUPPORTED_OPS
  }

  ghost predicate RefsKnown(inputs: set<Id>, ops: seq<OpEntry>) {
    forall e, ref :: e in ops && ref in e.inputs ==> ref in inputs || ref in IdsOf(ops)
  }

  ghost predicate Reads(ops: seq<OpEntry>, id: Id, ref: Id) {
    exists e :: e in ops && e.id == id && ref in e.inputs
  }

  /** The references among the ops: an edge from an op to each op that reads it. */
  ghost function RefGraph(ops: seq<OpEntry>): map<Id, set<Id>> {
    map ref | ref in IdsOf(ops) :: set id | id in IdsOf(ops) && Reads(ops, id, ref)
  }

  lemma RefEdge(ops: seq<OpEntry>, ref: Id, id: Id)
    ensures Edge(RefGraph(ops), ref, id) <==> ref in IdsOf(ops) && Reads(ops, id, ref)
  {
  }

  ghost predicate Compiles(inputs: set<Id>, ops: seq<OpEntry>) {
    IdsRegister(inputs, ops) && RefsKnown(inputs, ops) && Acyclic(RefGraph(ops))
  }

  /** Every op once, after the ops it reads. */
  ghost predicate IsEmission(ops: seq<OpEntry>, emitted: seq<Id>) {
    && NoDup(emitted) && Elems(emitted) == IdsOf(ops)
    && forall i, j :: 0 <= i < |emitted| && 0 <= j < |emitted| && Reads(ops, emitted[j], emitted[i]) ==> i < j
  }

  // ----- registration ------------------------------------------------------------------

  /** The op is the first that cannot be registered: its id names an input or an earlier op, or its type is not supported. */
  ghost predicate FirstFault(inputs: set<Id>, ops: seq<OpEntry>, i: nat, error: CompileError) {
    && i < |ops| && IdsRegister(inputs, ops[..i])
    && (if ops[i].id in inputs || exists j :: 0 <= j < i && ops[j].id == ops[i].id then error == DuplicateId(ops[i].id)
        else ops[i].kind !in SUPPORTED_OPS && error == UnsupportedOp(ops[i].id))
  }

  /** The op is the first that refers to an id that is none. */
  ghost predicate FirstUnknown(registered: set<Id>, ops: seq<OpEntry>, i: nat, id: Id) {
    && i < |ops| && ops[i].id == id && (exists ref :: ref in ops[i].inputs && ref !in registered)
    && forall j, ref :: 0 <= j < i && ref in ops[j].inputs ==> ref in registered
  }

  /** Each of these ops reads one of them, and every set of ops with that property is among them. */
  ghost predicate AreStuck(ops: seq<OpEntry>, pending: set<Id>) {
    && pending != {} && EachBlocked(ops, pending)
    && forall other {:trigger EachBlocked(ops, other)} :: EachBlocked(ops, other) ==> other <= pending
  }

  ghost predicate EachBlocked(ops: seq<OpEntry>, pending: set<Id>) {
    && pending <= IdsOf(ops)
    && forall id {:trigger Blocked(ops, pending, id)} :: id in pending ==> Blocked(ops, pending, id)
  }

  method RegisterIds(inputs: set<Id>, ops: seq<OpEntry>) returns (registered: set<Id>, error: Option<CompileError>)
    ensures error.None? <==> IdsRegister(inputs, ops)
    ensures error.None? ==> registered == inputs + IdsOf(ops)
    ensures error.Some? ==> exists i: nat :: FirstFault(inputs, ops, i, error.value)
  {
    registered, error := inputs, None;
    for i := 0 to |ops|
      invariant registered == inputs + IdsOf(ops[..i])
      invariant IdsRegister(inputs, ops[..i])
    {
      var entry := ops[i];
      assert entry in ops;
      if entry.id in registered {
        error := Some(DuplicateId(entry.id));
        if entry.id !in inputs {
          var e :| e in ops[..i] && e.id == entry.id;
        }
        assert FirstFault(inputs, ops, i, error.value);
        return;
      }
      if entry.kind !in SUPPORTED_OPS {
        error := Some(UnsupportedOp(entry.id));
        NotTaken(ops, i, entry.id);
        assert FirstFault(inputs, ops, i, error.value);
        return;
      }
      registered := registered + {entry.id};
      assert ops[..i + 1] == ops[..i] + [entry];
    }
    assert ops[..|ops|] == ops;
  }

  lemma NotTaken(ops: seq<OpEntry>, i: nat, id: Id)
    requires i <= |ops| && id !in IdsOf(ops[..i])
    ensures forall j :: 0 <= j < i ==> ops[j].id != id
  {
    forall j | 0 <= j < i ensures ops[j].id != id {
      assert ops[j] in ops[..i];
    }
  }

  // ----- the pending loop ----------------------------------------------------------------

  /** The loop state: what is emitted, in order, reads only inputs and earlier emissions. */
  ghost predicate EmittedSoFar(ops: seq<OpEntry>, pending: set<Id>, emitted: seq<Id>) {
    && NoDup(emitted) && Elems(emitted) == IdsOf(ops) - pending && pending <= IdsOf(ops)
    && (forall i, ref {:trigger Reads(ops, emitted[i], ref)} :: 0 <= i < |emitted| && Reads(ops, emitted[i], ref) ==>
          ref !in IdsOf(ops) || ref in emitted[..i])
  }

  ghost predicate Blocked(ops: seq<OpEntry>, pending: set<Id>, id: Id) {
    exists ref :: ref in pending && Reads(ops, id, ref)
  }

  ghost predicate KnownRefsOf(registered: set<Id>, e: OpEntry) {
    forall ref :: ref in e.inputs ==> ref in registered
  }

  lemma EntryReads(ops: seq<OpEntry>, e: OpEntry, ref: Id)
    requires DistinctIds(ops) && e in ops
    ensures Reads(ops, e.id, ref) <==> ref in e.inputs
  {
    if Reads(ops, e.id, ref) {
      var f :| f in ops && f.id == e.id && ref in f.inputs;
      var i :| 0 <= i < |ops| && ops[i] == e;
      var j :| 0 <= j < |ops| && ops[j] == f;
    }
  }

  lemma EmitOne(ops: seq<OpEntry>, pending: set<Id>, emitted: seq<Id>, e: OpEntry)
    requires DistinctIds(ops) && e in ops && e.id in pending
    requires EmittedSoFar(ops, pending, emitted)
    requires forall ref :: ref in e.inputs ==> ref !in pending
    ensures EmittedSoFar(ops, pending - {e.id}, emitted + [e.id])
  {
    var emitted' := emitted + [e.id];
    assert e.id !in Elems(emitted);
    forall i, ref {:trigger Reads(ops, emitted'[i], ref)} | 0 <= i < |emitted'| && Reads(ops, emitted'[i], ref)
      ensures ref !in IdsOf(ops) || ref in emitted'[..i]
    {
      if i == |emitted| {
        EntryReads(ops, e, ref);
        assert emitted'[..i] == emitted;
        assert ref in IdsOf(ops) ==> ref in Elems(emitted);
      } else {
        assert Reads(ops, emitted[i], ref);
        assert emitted'[..i] == emitted[..i];
      }
    }
  }

  ghost predicate IsUnknownIn(registered: set<Id>, ops: seq<OpEntry>, pending: set<Id>, i: nat, id: Id) {
    && i < |ops| && ops[i].id == id && id in pending && !KnownRefsOf(registered, ops[i])
    && forall j :: 0 <= j < i && ops[j].id in pending ==> KnownRefsOf(registered, ops[j])
  }

  /** One sweep over a snapshot of the pending ops. */
  method Sweep(registered: set<Id>, ops: seq<OpEntry>, pending0: set<Id>, emitted0: seq<Id>)
    returns (pending: set<Id>, emitted: seq<Id>, progress: bool, unknown: Option<Id>)
    requires DistinctIds(ops) && EmittedSoFar(ops, pending0, emitted0)
    ensures unknown.Some? ==> exists i :: 0 <= i < |ops| && IsUnknownIn(registered, ops, pending0, i, unknown.value)
    ensures unknown.None? ==> EmittedSoFar(ops, pending, emitted) && pending <= pending0
    ensures unknown.None? ==> forall e :: e in ops && e.id in pending0 ==> KnownRefsOf(registered, e)
    ensures unknown.None? && progress ==> pending < pending0
    ensures unknown.None? && !progress ==>
      pending == pending0 && forall id {:trigger Blocked(ops, pending, id)} :: id in pending ==> Blocked(ops, pending, id)
  {
    pending, emitted, progress, unknown := pending0, emitted0, false, None;
    for k := 0 to |ops|
      invariant EmittedSoFar(ops, pending, emitted) && pending <= pending0
      invariant forall i :: k <= i < |ops| ==> (ops[i].id in pending <==> ops[i].id in pending0)
      invariant forall i :: 0 <= i < k && ops[i].id in pending0 ==> KnownRefsOf(registered, ops[i])
      invariant progress ==> pending < pending0
      invariant !progress ==> pending == pending0
      invariant !progress ==> forall i :: 0 <= i < k && ops[i].id in pending0 ==> Blocked(ops, pending0, ops[i].id)
    {
      var entry := ops[k];
      assert entry in ops;
      // The snapshot holds the ops that were pending when the sweep began.
      if entry.id in pending0 {
        var state := StateOf(registered, pending, entry);
        match state {
          case Unknown =>
            unknown := Some(entry.id);
            assert IsUnknownIn(registered, ops, pending0, k, entry.id);
            return;
          case Waiting =>
            if !progress {
              EntryBlocked(ops, pending, entry);
            }
          case Emittable =>
            EmitOne(ops, pending, emitted, entry);
            emitted := emitted + [entry.id];
            pending := pending - {entry.id};
            progress := true;
        }
      }
    }
    if !progress {
      AllBlocked(ops, pending);
    }
  }

  lemma AllBlocked(ops: seq<OpEntry>, pending: set<Id>)
    requires pending <= IdsOf(ops)
    requires forall i :: 0 <= i < |ops| && ops[i].id in pending ==> Blocked(ops, pending, ops[i].id)
    ensures forall id {:trigger Blocked(ops, pending, id)} :: id in pending ==> Blocked(ops, pending, id)
  {
    forall id {:trigger Blocked(ops, pending, id)} | id in pending ensures Blocked(ops, pending, id) {
      var e :| e in ops && e.id == id;
    }
  }

  datatype EntryState = Unknown | Waiting | Emittable

  /** A pending op as the sweep finds it: with a reference that is no id at all, with one still pending, or ready. */
  function StateOf(registered: set<Id>, pending: set<Id>, e: OpEntry): (state: EntryState)
    ensures state.Unknown? <==> !KnownRefsOf(registered, e)
    ensures state.Waiting? ==> exists ref :: ref in e.inputs && ref in pending
    ensures state.Emittable? ==> forall ref :: ref in e.inputs ==> ref !in pending
  {
    if exists ref :: ref in e.inputs && ref !in registered then Unknown
    else if exists ref :: ref in e.inputs && ref in pending then Waiting
    else Emittable
  }

  lemma EntryBlocked(ops: seq<OpEntry>, pending: set<Id>, entry: OpEntry)
    requires DistinctIds(ops) && entry in ops && exists ref :: ref in entry.inputs && ref in pending
    ensures Blocked(ops, pending, entry.id)
  {
    var ref :| ref in entry.inputs && ref in pending;
    EntryReads(ops, entry, ref);
  }

  /** The loop over sweeps. */
  method EmitPending(registered: set<Id>, ops: seq<OpEntry>) returns (r: Result<seq<Id>, CompileError>)
    requires DistinctIds(ops) && IdsOf(ops) <= registered
    ensures r.Ok? ==> EmittedSoFar(ops, {}, r.value)
    ensures r.Err? && r.error.UnknownRef? <==> exists e :: e in ops && !KnownRefsOf(registered, e)
    ensures r.Err? && r.error.UnknownRef? ==> exists i: nat :: FirstUnknown(registered, ops, i, r.error.id)
    ensures r.Err? ==> r.error.UnknownRef? || (r.error.CycleDetected? && !Acyclic(RefGraph(ops)) && AreStuck(ops, r.error.pending))
  {
    var pending := IdsOf(ops);
    var emitted: seq<Id> := [];
    NoOpsNoRefs(registered, ops);
    ghost var swept := false;
    while pending != {}
      invariant EmittedSoFar(ops, pending, emitted)
      invariant !swept ==> pending == IdsOf(ops)
      invariant swept || pending == {} ==> forall e :: e in ops ==> KnownRefsOf(registered, e)
      decreases pending
    {
      var progress, unknown;
      pending, emitted, progress, unknown := Sweep(registered, ops, pending, emitted);
      if unknown.Some? {
        FirstIsUnknown(registered, ops, unknown.value);
        return Err(UnknownRef(unknown.value));
      }
      swept := true;
      if !progress {
        StuckHasCycle(ops, pending);
        StuckIsLargest(ops, pending, emitted);
        return Err(CycleDetected(pending));
      }
    }
    r := Ok(emitted);
  }

  lemma FirstIsUnknown(registered: set<Id>, ops: seq<OpEntry>, id: Id)
    requires exists i :: 0 <= i < |ops| && IsUnknownIn(registered, ops, IdsOf(ops), i, id)
    ensures exists i: nat :: FirstUnknown(registered, ops, i, id)
    ensures exists e :: e in ops && !KnownRefsOf(registered, e)
  {
    var i :| 0 <= i < |ops| && IsUnknownIn(registered, ops, IdsOf(ops), i, id);
    forall j | 0 <= j < i ensures KnownRefsOf(registered, ops[j]) {
      assert ops[j].id in IdsOf(ops);
    }
    assert FirstUnknown(registered, ops, i, id);
    assert ops[i] in ops;
  }

  /** What has been emitted reads nothing that could be stuck. */
  lemma StuckIsLargest(ops: seq<OpEntry>, pending: set<Id>, emitted: seq<Id>)
    requires EmittedSoFar(ops, pending, emitted) && pending != {} && EachBlocked(ops, pending)
    ensures AreStuck(ops, pending)
  {
    forall other | EachBlocked(ops, other) ensures other <= pending {
      EmittedNotStuck(ops, pending, emitted, other, |emitted|);
      forall id | id in other ensures id in pending {
        assert id in IdsOf(ops) - pending ==> id in Elems(emitted);
      }
    }
  }

  lemma {:induction false} EmittedNotStuck(ops: seq<OpEntry>, pending: set<Id>, emitted: seq<Id>, other: set<Id>, n: nat)
    requires EmittedSoFar(ops, pending, emitted) && EachBlocked(ops, other) && n <= |emitted|
    ensures forall i :: 0 <= i < n ==> emitted[i] !in other
  {
    if n > 0 {
      var id := emitted[n - 1];
      EmittedNotStuck(ops, pending, emitted, other, n - 1);
      forall ref | Reads(ops, id, ref) ensures ref !in other {
        if ref in IdsOf(ops) {
          assert ref in emitted[..n - 1];
        }
      }
      assert !Blocked(ops, other, id);
    }
  }

  /** `_compile_workflow` on ids and references: the emission order, or the error raised. */
  method CompileWorkflow(inputs: set<Id>, ops: seq<OpEntry>) returns (r: Result<seq<Id>, CompileError>)
    ensures r.Ok? <==> Compiles(inputs, ops)
    ensures r.Ok? ==> IsEmission(ops, r.value)
    ensures r.Err? && (r.error.DuplicateId? || r.error.UnsupportedOp?) <==> !IdsRegister(inputs, ops)
    ensures r.Err? && r.error.UnknownRef? <==> IdsRegister(inputs, ops) && !RefsKnown(inputs, ops)
    ensures r.Err? && r.error.CycleDetected? <==>
      IdsRegister(inputs, ops) && RefsKnown(inputs, ops) && !Acyclic(RefGraph(ops))
    ensures r.Err? && (r.error.DuplicateId? || r.error.UnsupportedOp?) ==> exists i: nat :: FirstFault(inputs, ops, i, r.error)
    ensures r.Err? && r.error.UnknownRef? ==> exists i: nat :: FirstUnknown(inputs + IdsOf(ops), ops, i, r.error.id)
    ensures r.Err? && r.error.CycleDetected? ==> AreStuck(ops, r.error.pending)
  {
    var registered, error := RegisterIds(inputs, ops);
    if error.Some? {
      return Err(error.value);
    }
    r := EmitPending(registered, ops);
    KnownIsKnown(inputs, ops);
    if r.Ok? {
      EmissionComplete(ops, r.value);
    }
  }

  lemma KnownIsKnown(inputs: set<Id>, ops: seq<OpEntry>)
    ensures RefsKnown(inputs, ops) <==> forall e :: e in ops ==> KnownRefsOf(inputs + IdsOf(ops), e)
  {
    if RefsKnown(inputs, ops) {
      forall e | e in ops ensures KnownRefsOf(inputs + IdsOf(ops), e) {}
    } else {
      var e, ref :| e in ops && ref in e.inputs && ref !in inputs && ref !in IdsOf(ops);
      assert !KnownRefsOf(inputs + IdsOf(ops), e);
    }
  }

  lemma NoOpsNoRefs(registered: set<Id>, ops: seq<OpEntry>)
    ensures IdsOf(ops) == {} ==> forall e :: e in ops ==> KnownRefsOf(registered, e)
  {
    assert forall e :: e in ops ==> e.id in IdsOf(ops);
  }

  lemma StuckHasCycle(ops: seq<OpEntry>, pending: set<Id>)
    requires pending != {} && pending <= IdsOf(ops)
    requires forall id {:trigger Blocked(ops, pending, id)} :: id in pending ==> Blocked(ops, pending, id)
    ensures !Acyclic(RefGraph(ops))
  {
    var g := RefGraph(ops);
    forall id {:trigger HasPredIn(g, pending, id)} | id in pending ensures HasPredIn(g, pending, id) {
      assert Blocked(ops, pending, id);
      var ref :| ref in pending && Reads(ops, id, ref);
      RefEdge(ops, ref, id);
    }
    NoSourceHasCycle(g, pending);
  }

  ghost function Positions(s: seq<Id>): (m: map<Id, nat>)
    ensures m.Keys == Elems(s)
    ensures NoDup(s) ==> forall i :: 0 <= i < |s| ==> m[s[i]] == i
  {
    if s == [] then map[]
    else
      var k := |s| - 1;
      assert s == s[..k] + [s[k]];
      assert s[k] in Elems(s);
      assert NoDup(s) ==> forall i :: 0 <= i < k ==> s[i] == s[..k][i] && s[i] in Elems(s[..k]);
      Positions(s[..k])[s[k] := k]
  }

  /** An order in which everything comes after what it reads shows that there is no cycle. */
  lemma EmissionComplete(ops: seq<OpEntry>, emitted: seq<Id>)
    requires EmittedSoFar(ops, {}, emitted)
    ensures IsEmission(ops, emitted) && Acyclic(RefGraph(ops))
  {
    forall i, j | 0 <= i < |emitted| && 0 <= j < |emitted| && Reads(ops, emitted[j], emitted[i]) ensures i < j {
      assert emitted[i] in Elems(emitted);
      assert emitted[i] in emitted[..j];
    }
    EmissionRanks(ops, emitted);
  }

  lemma EmissionRanks(ops: seq<OpEntry>, emitted: seq<Id>)
    requires IsEmission(ops, emitted)
    ensures Acyclic(RefGraph(ops))
  {
    var g, rank := RefGraph(ops), Positions(emitted);
    forall a, b | Edge(g, a, b) ensures a in rank && b in rank && rank[a] < rank[b] {
      RefEdge(ops, a, b);
      assert a in Elems(emitted) && b in Elems(emitted);
      var i :| 0 <= i < |emitted| && emitted[i] == a;
      var j :| 0 <= j < |emitted| && emitted[j] == b;
    }
    RankedIsAcyclic(g, rank);
  }
}
