/**
 routes/jobs.py: `_admit_subgraph` and the loop of `_run_dynamic_job`, as the rounds see it.
 Each round forwards and compiles the current subgraph, runs it as a child job, stores the
 archived outputs, and admits the planner's next subgraph.
 The planner's replies and the children's outcomes come from outside: any sequence of them.
 */
module DynamicRun {
  import opened Digraph
  import opened Sequences
  import opened BoundIds
  import opened References
  import opened Forwarding
  import opened Admission
  import W = Workflow

  /** A planner reply, after parsing. */
  datatype Reply = Stop | Subgraph(ops: seq<PlanOp>, exports: seq<Id>) | Malformed

  /** How a child job ends: not at all (the parent is terminal), badly, or with archived items by op id. */
  datatype Outcome = NotStarted | NotCompleted | Completed(items: map<Id, seq<Item>>)

  datatype Event = Event(outcome: Outcome, reply: Reply)

  datatype BuildError = ForwardFailed(forward: ForwardError) | CompileFailed(compile: W.CompileError)

  datatype Status = Continue | Stopped | Failed | Interrupted

  // ----- the history of a run --------------------------------------------------------------

  ghost predicate Extends(after: map<Id, PlanOp>, before: map<Id, PlanOp>) {
    forall id :: id in before ==> id in after && after[id] == before[id]
  }

  /** Each registry of the list extends all before it. */
  ghost predicate OnlyGrow(registries: seq<map<Id, PlanOp>>) {
    forall i, j :: 0 <= i <= j < |registries| ==> Extends(registries[j], registries[i])
  }

  /** The registries of a run so far, the last one as it is now. */
  ghost predicate Recorded(registries: seq<map<Id, PlanOp>>, registry: map<Id, PlanOp>) {
    registries != [] && registries[|registries| - 1] == registry && OnlyGrow(registries)
  }

  lemma OneMoreRegistry(registries: seq<map<Id, PlanOp>>, next: map<Id, PlanOp>)
    requires registries != [] && Recorded(registries, registries[|registries| - 1])
    requires Extends(next, registries[|registries| - 1])
    ensures Recorded(registries + [next], next)
  {
    var last := registries[|registries| - 1];
    forall i | 0 <= i < |registries| ensures Extends(next, registries[i]) {
      assert Extends(last, registries[i]);
    }
  }

  /** All ops ever admitted, in order: new ids only, references to the run's input and to the past. */
  ghost predicate GoodHistory(history: seq<PlanOp>) {
    && (forall i, j :: 0 <= i < j < |history| ==> history[i].id != history[j].id)
    && (forall i, ref :: 0 <= i < |history| && ref in history[i].inputs ==>
          ref == INPUT_NODE_ID || EarlierIn(history, i, ref))
  }

  /** The references of the whole run, over all rounds, form no cycle. */
  lemma HistoryIsAcyclic(history: seq<PlanOp>)
    requires GoodHistory(history)
    requires forall op :: op in history ==> op.id != INPUT_NODE_ID
    ensures Acyclic(W.RefGraph(Entries(history)))
  {
    var g := W.RefGraph(Entries(history));
    var rank := map id | id in OpIds(history) :: Position(history, id);
    forall a, b | Edge(g, a, b) ensures a in rank && b in rank && rank[a] < rank[b] {
      W.RefEdge(Entries(history), a, b);
      HistoryRefClimbs(history, a, b);
    }
    RankedIsAcyclic(g, rank);
  }

  lemma HistoryRefClimbs(history: seq<PlanOp>, a: Id, b: Id)
    requires GoodHistory(history) && forall op :: op in history ==> op.id != INPUT_NODE_ID
    requires a in W.IdsOf(Entries(history)) && W.Reads(Entries(history), b, a)
    ensures a in OpIds(history) && b in OpIds(history) && Position(history, a) < Position(history, b)
  {
    var i := ReadingEntry(history, a, b);
    HistoryIdIsOps(history, a);
    assert history[i] in history;
    var j :| 0 <= j < i && history[j].id == a;
    assert history[j] in history;
    PositionIs(history, i);
    PositionIs(history, j);
  }

  lemma ReadingEntry(history: seq<PlanOp>, a: Id, b: Id) returns (i: nat)
    requires W.Reads(Entries(history), b, a)
    ensures i < |history| && history[i].id == b && a in history[i].inputs
  {
    var e :| e in Entries(history) && e.id == b && a in e.inputs;
    i :| 0 <= i < |history| && e == Entry(history[i]);
  }

  lemma HistoryIdIsOps(history: seq<PlanOp>, a: Id)
    requires a in W.IdsOf(Entries(history)) && forall op :: op in history ==> op.id != INPUT_NODE_ID
    ensures a in OpIds(history) && a != INPUT_NODE_ID
  {
    var d :| d in Entries(history) && d.id == a;
    var k :| 0 <= k < |history| && d == Entry(history[k]);
    assert history[k] in history;
  }

  lemma AppendRound(history: seq<PlanOp>, subgraph: seq<PlanOp>, maxNodes: nat, exports: seq<Id>, available: set<Id>)
    requires GoodHistory(history) && Admissible(subgraph, OpIds(history), maxNodes, exports, available)
    ensures GoodHistory(history + subgraph)
    ensures OpIds(history + subgraph) == OpIds(history) + OpIds(subgraph)
    ensures OpIds(history) !! OpIds(subgraph)
  {
    var h := history + subgraph;
    var n := |history|;
    assert forall i :: 0 <= i < |history| ==> history[i] in history;
    assert forall i :: 0 <= i < |subgraph| ==> subgraph[i] in subgraph;
    forall i, ref | 0 <= i < |h| && ref in h[i].inputs ensures ref == INPUT_NODE_ID || EarlierIn(h, i, ref) {
      if i < n {
        EarlierAppends(history, subgraph, i, ref);
      } else {
        AppendedRef(history, subgraph, maxNodes, exports, available, i - n, ref);
      }
    }
  }

  lemma EarlierAppends(history: seq<PlanOp>, subgraph: seq<PlanOp>, i: nat, ref: Id)
    requires i <= |history|
    ensures EarlierIn(history, i, ref) ==> EarlierIn(history + subgraph, i, ref)
  {
    if EarlierIn(history, i, ref) {
      var j :| 0 <= j < i && history[j].id == ref;
      assert (history + subgraph)[j].id == ref;
    }
  }

  lemma AppendedRef(
    history: seq<PlanOp>, subgraph: seq<PlanOp>, maxNodes: nat, exports: seq<Id>, available: set<Id>, i: nat, ref: Id)
    requires Admissible(subgraph, OpIds(history), maxNodes, exports, available)
    requires i < |subgraph| && ref in subgraph[i].inputs
    ensures ref == INPUT_NODE_ID || EarlierIn(history + subgraph, |history| + i, ref)
  {
    var h, n := history + subgraph, |history|;
    assert GoodRef(subgraph, i, ref, OpIds(history), available);
    if ref in OpIds(history) {
      var op :| op in history && op.id == ref;
      var j :| 0 <= j < n && history[j] == op;
      assert h[j].id == ref;
    } else if EarlierIn(subgraph, i, ref) {
      var j :| 0 <= j < i && subgraph[j].id == ref;
      assert h[n + j].id == ref;
    }
  }

  /** What a completed round archives: its leaves and its exports. */
  ghost function Archived(subgraph: seq<PlanOp>, exports: seq<Id>): set<Id> {
    set id | id in OpIds(subgraph) && (IsLeaf(subgraph, id) || id in exports)
  }

  /** The child's outputs hold everything the round archives. */
  ghost predicate Extracted(subgraph: seq<PlanOp>, exports: seq<Id>, items: map<Id, seq<Item>>) {
    forall id :: id in Archived(subgraph, exports) ==> id in items
  }

  /** The results once a round's archived items are stored. */
  ghost function Stored(
    results: map<Id, seq<Item>>, subgraph: seq<PlanOp>, exports: seq<Id>, items: map<Id, seq<Item>>): (r: map<Id, seq<Item>>)
    requires Extracted(subgraph, exports, items)
  {
    map id | id in results.Keys + Archived(subgraph, exports) ::
      if id in Archived(subgraph, exports) then items[id] else results[id]
  }

  /** What is stored, op by op: the items of every op of the round that no op of it reads or that is exported, and what was stored before. */
  lemma StoredOpByOp(
    results: map<Id, seq<Item>>, subgraph: seq<PlanOp>, exports: seq<Id>, items: map<Id, seq<Item>>, id: Id)
    requires Extracted(subgraph, exports, items)
    ensures
      var stored := Stored(results, subgraph, exports, items);
      if exists op :: op in subgraph && op.id == id && (id in exports || forall reader :: reader in subgraph ==> id !in reader.inputs)
      then id in items && id in stored && stored[id] == items[id]
      else (id in stored <==> id in results) && (id in results ==> stored[id] == results[id])
  {
    if id in OpIds(subgraph) {
      var op :| op in subgraph && op.id == id;
    }
  }

  lemma StoredIs(
    before: map<Id, seq<Item>>, after: map<Id, seq<Item>>, subgraph: seq<PlanOp>, exports: seq<Id>, ids: set<Id>,
    items: map<Id, seq<Item>>)
    requires Extracted(subgraph, exports, items) && ids == Archived(subgraph, exports)
    requires after.Keys == before.Keys + ids
    requires forall id :: id in after ==> after[id] == if id in ids then items[id] else before[id]
    ensures after == Stored(before, subgraph, exports, items)
  {
  }

  datatype Round = Round(subgraph: seq<PlanOp>, exports: seq<Id>)

  ghost function ArchivedBy(rounds: seq<Round>): set<Id> {
    if rounds == [] then {}
    else
      var k := |rounds| - 1;
      ArchivedBy(rounds[..k]) + Archived(rounds[k].subgraph, rounds[k].exports)
  }

  /** The ops that have been compiled into some round's graph. */
  ghost function RanIn(rounds: seq<Round>): seq<PlanOp> {
    if rounds == [] then []
    else
      var k := |rounds| - 1;
      RanIn(rounds[..k]) + rounds[k].subgraph
  }

  lemma ArchivedRan(rounds: seq<Round>)
    ensures ArchivedBy(rounds) <= OpIds(RanIn(rounds))
  {
    if rounds != [] {
      ArchivedRan(rounds[..|rounds| - 1]);
    }
  }

  /** What holds at every moment of every run. */
  ghost predicate SafeRun(
    registry: map<Id, PlanOp>, results: map<Id, seq<Item>>, history: seq<PlanOp>, completed: seq<Round>)
  {
    && GoodHistory(history)
    && Registered(registry, history)
    && registry.Keys !! FIXED_ROUND_NODE_IDS
    && results.Keys == ArchivedBy(completed)
    && RanIn(completed) <= history
  }

  /** The registry holds exactly the admitted ops. */
  ghost predicate Registered(registry: map<Id, PlanOp>, history: seq<PlanOp>) {
    && registry.Keys == OpIds(history)
    && (forall op :: op in history ==> op.id in registry && registry[op.id] == op)
  }

  lemma AdmitKeepsSafe(
    before: map<Id, PlanOp>, after: map<Id, PlanOp>, results: map<Id, seq<Item>>, history: seq<PlanOp>,
    completed: seq<Round>, ops: seq<PlanOp>, maxNodes: nat, exports: seq<Id>)
    requires SafeRun(before, results, history, completed)
    requires Admissible(ops, before.Keys, maxNodes, exports, results.Keys)
    requires after.Keys == before.Keys + OpIds(ops) && Extends(after, before)
    requires forall op :: op in ops ==> op.id in after && after[op.id] == op
    ensures SafeRun(after, results, history + ops, completed)
  {
    AppendRound(history, ops, maxNodes, exports, results.Keys);
  }

  lemma StoreKeepsSafe(
    registry: map<Id, PlanOp>, before: map<Id, seq<Item>>, after: map<Id, seq<Item>>, history: seq<PlanOp>,
    completed: seq<Round>, round: Round)
    requires SafeRun(registry, before, history, completed) && history == RanIn(completed) + round.subgraph
    requires after.Keys == before.Keys + Archived(round.subgraph, round.exports)
    ensures SafeRun(registry, after, history, completed + [round])
    ensures history == RanIn(completed + [round])
  {
    assert (completed + [round])[..|completed|] == completed;
  }

  /** The compiled round consists of its own ops, none of which has run, and the decoders of its references. */
  ghost predicate IsRoundGraph(subgraph: seq<PlanOp>, st: Store, ran: set<Id>, round: seq<W.OpEntry>) {
    && W.IdsOf(round) == OpIds(subgraph) + DecoderIds(st, RoundRefs(subgraph))
    && OpIds(subgraph) !! ran
    && ((forall id :: id in ran ==> SepFree(id)) ==> W.IdsOf(round) !! ran)
  }

  // ----- what a turn of the loop does ----------------------------------------------------------

  /** The limits of a run: rounds, ops per round, input rows, and whether the planner is an external endpoint. */
  datatype Limits = Limits(maxRounds: nat, maxNodes: nat, rows: nat, external: bool)

  datatype RunState = RunState(
    registry: map<Id, PlanOp>, results: map<Id, seq<Item>>, roundIndex: nat, subgraph: seq<PlanOp>, exports: seq<Id>,
    children: nat, history: seq<PlanOp>, completed: seq<Round>)

  ghost predicate SafeState(a: RunState) {
    SafeRun(a.registry, a.results, a.history, a.completed)
  }

  /** At the loop head: the current subgraph was admitted and has not run. */
  ghost predicate ReadyState(p: Limits, a: RunState) {
    && SafeState(a)
    && a.history == RanIn(a.completed) + a.subgraph
    && a.children <= a.roundIndex && (p.external && a.roundIndex > 0 ==> a.children < a.roundIndex)
    && (a.subgraph != [] ==> Admissible(a.subgraph, OpIds(RanIn(a.completed)), p.maxNodes, a.exports, a.results.Keys))
  }

  ghost predicate Buildable(a: RunState, rows: nat) {
    var st := Store(a.results, a.registry, rows);
    CanForwardFrom(st, RoundRefs(a.subgraph), 0) && NamesApart(st, a.subgraph)
  }

  /** The registry with the ops entered under their ids. */
  ghost predicate Grows(before: map<Id, PlanOp>, ops: seq<PlanOp>, after: map<Id, PlanOp>) {
    && after.Keys == before.Keys + OpIds(ops) && Extends(after, before)
    && forall op :: op in ops ==> op.id in after && after[op.id] == op
  }

  ghost predicate CanAdmit(p: Limits, a: RunState, reply: Reply) {
    reply.Subgraph? && Admissible(reply.ops, a.registry.Keys, p.maxNodes, reply.exports, a.results.Keys)
  }

  /** A reply ends the run, fails it, or makes its subgraph the next round's. */
  ghost predicate Answered(p: Limits, a: RunState, reply: Reply, status: Status, b: RunState) {
    if reply.Stop? then status == Stopped && b == a
    else if !CanAdmit(p, a, reply) then status == Failed && b == a
    else
      && status == Continue && Grows(a.registry, reply.ops, b.registry)
      && b == a.(registry := b.registry, history := a.history + reply.ops, subgraph := reply.ops,
                 exports := reply.exports, roundIndex := a.roundIndex + 1)
  }

  /** The child has come back with everything the round archives, and the reply can be read. */
  ghost predicate Returned(a: RunState, event: Event) {
    && event.outcome.Completed? && Extracted(a.subgraph, a.exports, event.outcome.items) && !event.reply.Malformed?
  }

  /** The state when the round's outputs are stored. */
  ghost function WithArchive(a: RunState, items: map<Id, seq<Item>>): (b: RunState)
    requires Extracted(a.subgraph, a.exports, items)
  {
    a.(results := Stored(a.results, a.subgraph, a.exports, items), completed := a.completed + [Round(a.subgraph, a.exports)])
  }

  ghost function WithChild(a: RunState): (b: RunState) {
    a.(children := a.children + 1)
  }

  /** The state when the child has been counted and its outputs are stored. */
  ghost function Archive(a: RunState, items: map<Id, seq<Item>>): (b: RunState)
    requires Extracted(a.subgraph, a.exports, items)
  {
    WithArchive(WithChild(a), items)
  }

  /** The round runs as a child, its outputs are stored and the reply is answered. */
  ghost predicate RanChild(p: Limits, a: RunState, event: Event, status: Status, b: RunState) {
    if !Returned(a, event) then status == Failed && b == WithChild(a)
    else Answered(p, Archive(a, event.outcome.items), event.reply, status, b)
  }

  /** A round is built, run as a child, stored and answered; the first of these that does not happen ends the run. */
  ghost predicate RanRound(p: Limits, a: RunState, event: Event, status: Status, b: RunState) {
    if !Buildable(a, p.rows) then status == Failed && b == a
    else if event.outcome.NotStarted? then status == Interrupted && b == a
    else RanChild(p, a, event, status, b)
  }

  /** One turn: an external planner is first asked for a subgraph, every other turn runs a round. */
  ghost predicate TookTurn(p: Limits, first: Reply, event: Event, a: RunState, status: Status, b: RunState) {
    if p.external && a.roundIndex == 0 then Answered(p, a, first, status, b) else RanRound(p, a, event, status, b)
  }

  datatype TurnTaken = TurnTaken(before: RunState, status: Status, after: RunState)

  ghost predicate GoodTurn(p: Limits, first: Reply, events: nat -> Event, turns: seq<TurnTaken>, i: nat)
    requires i < |turns|
  {
    && turns[i].before.roundIndex < p.maxRounds
    && TookTurn(p, first, events(turns[i].before.roundIndex), turns[i].before, turns[i].status, turns[i].after)
    && (i + 1 < |turns| ==> turns[i].status == Continue && turns[i + 1].before == turns[i].after)
  }

  /** The turns lead from `start` to `end`, each from where the one before went on. */
  ghost predicate IsRunOf(
    p: Limits, first: Reply, events: nat -> Event, start: RunState, turns: seq<TurnTaken>, status: Status, end: RunState)
  {
    && (forall i: nat {:trigger GoodTurn(p, first, events, turns, i)} :: i < |turns| ==> GoodTurn(p, first, events, turns, i))
    && (turns == [] ==> status == Continue && end == start)
    && (turns != [] ==>
          && turns[0].before == start
          && turns[|turns| - 1].status == status && turns[|turns| - 1].after == end)
  }

  /** The run is over: it was ended, or it has used up its rounds. */
  ghost predicate IsOver(p: Limits, status: Status, end: RunState) {
    status != Continue || end.roundIndex >= p.maxRounds
  }

  lemma AppendTurn(
    p: Limits, first: Reply, events: nat -> Event, start: RunState, turns: seq<TurnTaken>, now: RunState, next: TurnTaken)
    requires IsRunOf(p, first, events, start, turns, Continue, now) && next.before == now && now.roundIndex < p.maxRounds
    requires TookTurn(p, first, events(now.roundIndex), now, next.status, next.after)
    ensures IsRunOf(p, first, events, start, turns + [next], next.status, next.after)
  {
    var all := turns + [next];
    forall i: nat {:trigger GoodTurn(p, first, events, all, i)} | i < |all| ensures GoodTurn(p, first, events, all, i) {
      if i < |turns| {
        assert GoodTurn(p, first, events, turns, i);
      }
    }
  }

  // ----- how runs end ----------------------------------------------------------------------------

  /** The turn's reply is to be heard: the external planner's first, or that of a round that was built and came back. */
  ghost predicate Heard(p: Limits, event: Event, a: RunState) {
    (p.external && a.roundIndex == 0) || (Buildable(a, p.rows) && Returned(a, event))
  }

  ghost function ReplyOf(p: Limits, first: Reply, event: Event, a: RunState): (reply: Reply) {
    if p.external && a.roundIndex == 0 then first else event.reply
  }

  /** The state in which the reply is judged. */
  ghost function Judged(p: Limits, event: Event, a: RunState): (b: RunState)
    requires Heard(p, event, a)
  {
    if p.external && a.roundIndex == 0 then a else Archive(a, event.outcome.items)
  }

  /** The turn goes on: it is heard and answered by a subgraph that is admitted. */
  ghost predicate GoesOn(p: Limits, first: Reply, event: Event, a: RunState) {
    Heard(p, event, a) && CanAdmit(p, Judged(p, event, a), ReplyOf(p, first, event, a))
  }

  ghost predicate Stops(p: Limits, first: Reply, event: Event, a: RunState) {
    Heard(p, event, a) && ReplyOf(p, first, event, a).Stop?
  }

  /** A turn goes on exactly when it is heard and admitted, and stops exactly when it is heard and told to. */
  lemma TurnDecides(p: Limits, first: Reply, event: Event, a: RunState, status: Status, b: RunState)
    requires TookTurn(p, first, event, a, status, b)
    ensures status == Continue <==> GoesOn(p, first, event, a)
    ensures status == Stopped <==> Stops(p, first, event, a)
    ensures status == Continue ==> b.roundIndex == a.roundIndex + 1
    ensures status == Continue || status == Stopped ==>
              b.completed == Judged(p, event, a).completed && b.children == Judged(p, event, a).children
  {
  }

  /** How many rounds have completed before turn `k`: the first turn of an external planner completes none. */
  ghost function RoundsBefore(p: Limits, k: nat): (n: nat) {
    if p.external && k > 0 then k - 1 else k
  }

  ghost predicate IsStart(a: RunState) {
    a.roundIndex == 0 && a.children == 0 && a.completed == []
  }

  /** Turn `i` is taken in round `i`, with one round completed for each turn before it that ran one. */
  lemma {:induction false} TurnsCount(
    p: Limits, first: Reply, events: nat -> Event, start: RunState, turns: seq<TurnTaken>, status: Status, end: RunState, i: nat)
    requires IsRunOf(p, first, events, start, turns, status, end) && IsStart(start) && i < |turns|
    ensures turns[i].before.roundIndex == i
    ensures |turns[i].before.completed| == RoundsBefore(p, i) && turns[i].before.children == RoundsBefore(p, i)
  {
    if i > 0 {
      TurnsCount(p, first, events, start, turns, status, end, i - 1);
      assert GoodTurn(p, first, events, turns, i - 1);
      var t := turns[i - 1];
      TurnDecides(p, first, events(i - 1), t.before, t.status, t.after);
    }
  }

  /** The first `n` turns, as far as they are taken, go on. */
  ghost predicate FirstGoOn(p: Limits, first: Reply, events: nat -> Event, turns: seq<TurnTaken>, n: nat) {
    forall i: nat {:trigger GoesOnAt(p, first, events, turns, i)} :: i < n && i < |turns| ==> GoesOnAt(p, first, events, turns, i)
  }

  ghost predicate GoesOnAt(p: Limits, first: Reply, events: nat -> Event, turns: seq<TurnTaken>, i: nat) {
    i < |turns| && GoesOn(p, first, events(i), turns[i].before)
  }

  lemma TurnWentOn(
    p: Limits, first: Reply, events: nat -> Event, start: RunState, turns: seq<TurnTaken>, status: Status, end: RunState, i: nat)
    requires IsRunOf(p, first, events, start, turns, status, end) && IsStart(start) && GoesOnAt(p, first, events, turns, i)
    ensures turns[i].status == Continue && turns[i].after.roundIndex == i + 1
    ensures |turns[i].after.completed| == RoundsBefore(p, i + 1) && turns[i].after.children == RoundsBefore(p, i + 1)
  {
    TurnsCount(p, first, events, start, turns, status, end, i);
    assert GoodTurn(p, first, events, turns, i);
    TurnDecides(p, first, events(i), turns[i].before, turns[i].status, turns[i].after);
  }

  /** As long as turns go on there is a next one, until the rounds are used up. */
  lemma {:induction false} RunGoesOn(
    p: Limits, first: Reply, events: nat -> Event, start: RunState, turns: seq<TurnTaken>, status: Status, end: RunState, n: nat)
    requires IsRunOf(p, first, events, start, turns, status, end) && IsStart(start) && IsOver(p, status, end) && n < p.maxRounds
    requires FirstGoOn(p, first, events, turns, n)
    ensures n < |turns|
  {
    if n > 0 {
      RunGoesOn(p, first, events, start, turns, status, end, n - 1);
      assert GoesOnAt(p, first, events, turns, n - 1);
      TurnWentOn(p, first, events, start, turns, status, end, n - 1);
    }
  }

  /**
   A run whose first `n` turns go on and whose next one is told to stop ends there, stopped, with a
   child and a completed round for every turn that ran a round.
   */
  lemma StopEndsRun(
    p: Limits, first: Reply, events: nat -> Event, start: RunState, turns: seq<TurnTaken>, status: Status, end: RunState, n: nat)
    requires IsRunOf(p, first, events, start, turns, status, end) && IsStart(start) && IsOver(p, status, end) && n < p.maxRounds
    requires FirstGoOn(p, first, events, turns, n)
    requires n < |turns| ==> Stops(p, first, events(n), turns[n].before)
    ensures status == Stopped && |turns| == n + 1
    ensures |end.completed| == RoundsBefore(p, n + 1) && end.children == RoundsBefore(p, n + 1)
  {
    RunGoesOn(p, first, events, start, turns, status, end, n);
    TurnsCount(p, first, events, start, turns, status, end, n);
    assert GoodTurn(p, first, events, turns, n);
    TurnDecides(p, first, events(n), turns[n].before, turns[n].status, turns[n].after);
  }

  /** A run all of whose turns go on uses up its rounds. */
  lemma RunUsesAllRounds(
    p: Limits, first: Reply, events: nat -> Event, start: RunState, turns: seq<TurnTaken>, status: Status, end: RunState)
    requires IsRunOf(p, first, events, start, turns, status, end) && IsStart(start) && IsOver(p, status, end)
    requires FirstGoOn(p, first, events, turns, |turns|)
    ensures status == Continue && |turns| == p.maxRounds
    ensures |end.completed| == RoundsBefore(p, p.maxRounds) && end.children == RoundsBefore(p, p.maxRounds)
  {
    TurnsFit(p, first, events, start, turns, status, end);
    if p.maxRounds > 0 {
      RunGoesOn(p, first, events, start, turns, status, end, p.maxRounds - 1);
      assert GoesOnAt(p, first, events, turns, |turns| - 1);
      TurnWentOn(p, first, events, start, turns, status, end, |turns| - 1);
    }
  }

  lemma TurnsFit(
    p: Limits, first: Reply, events: nat -> Event, start: RunState, turns: seq<TurnTaken>, status: Status, end: RunState)
    requires IsRunOf(p, first, events, start, turns, status, end) && IsStart(start)
    ensures |turns| <= p.maxRounds
  {
    if turns != [] {
      TurnsCount(p, first, events, start, turns, status, end, |turns| - 1);
      assert GoodTurn(p, first, events, turns, |turns| - 1);
    }
  }

  // ----- the run ----------------------------------------------------------------------------

  class DynamicJob {
    const maxRounds: nat
    const maxNodes: nat
    const rows: nat
    /** The planner is an external endpoint, asked once before the first child. */
    const external: bool
    var nodeRegistry: map<Id, PlanOp>
    var allResults: map<Id, seq<Item>>
    var roundIndex: nat
    var currentSubgraph: seq<PlanOp>
    var currentExport: seq<Id>
    var children: nat
    /** Every op admitted, in order; and the rounds that completed. */
    ghost var history: seq<PlanOp>
    ghost var completed: seq<Round>

    constructor (maxRounds: nat, maxNodes: nat, rows: nat, external: bool)
      ensures this.maxRounds == maxRounds && this.external == external && this.rows == rows
      ensures Ready() && children == 0 && completed == [] && roundIndex == 0 && nodeRegistry == map[]
    {
      this.maxRounds, this.maxNodes, this.rows, this.external := maxRounds, maxNodes, rows, external;
      nodeRegistry, allResults, roundIndex, currentSubgraph, currentExport := map[], map[], 0, [], [];
      children, history, completed := 0, [], [];
    }

    ghost function Bounds(): (p: Limits)
    {
      Limits(maxRounds, maxNodes, rows, external)
    }

    ghost function Now(): (a: RunState)
      reads this
    {
      RunState(nodeRegistry, allResults, roundIndex, currentSubgraph, currentExport, children, history, completed)
    }

    ghost predicate Safe()
      reads this
    {
      SafeState(Now())
    }

    /** At the loop head: the current subgraph was admitted and has not run. */
    ghost predicate Ready()
      reads this
    {
      ReadyState(Bounds(), Now())
    }

    method Register(ops: seq<PlanOp>)
      requires forall i, j :: 0 <= i < j < |ops| ==> ops[i].id != ops[j].id
      requires forall op :: op in ops ==> op.id !in nodeRegistry
      modifies this`nodeRegistry
      ensures nodeRegistry.Keys == old(nodeRegistry).Keys + OpIds(ops)
      ensures Extends(nodeRegistry, old(nodeRegistry))
      ensures forall op :: op in ops ==> op.id in nodeRegistry && nodeRegistry[op.id] == op
      ensures Grows(old(nodeRegistry), ops, nodeRegistry)
    {
      for i := 0 to |ops|
        invariant nodeRegistry.Keys == old(nodeRegistry).Keys + OpIds(ops[..i])
        invariant Extends(nodeRegistry, old(nodeRegistry))
        invariant forall k :: 0 <= k < i ==> ops[k].id in nodeRegistry && nodeRegistry[ops[k].id] == ops[k]
      {
        assert ops[i] in ops;
        nodeRegistry := nodeRegistry[ops[i].id := ops[i]];
        assert ops[..i + 1] == ops[..i] + [ops[i]];
      }
      assert ops[..|ops|] == ops;
    }

    /** `_admit_subgraph`: validate, then register every op. */
    method Admit(ops: seq<PlanOp>, exports: seq<Id>) returns (error: Option<AdmissionError>)
      requires Safe()
      modifies this`nodeRegistry, this`history
      ensures Safe() && Extends(nodeRegistry, old(nodeRegistry))
      ensures error.None? <==> Admissible(ops, old(nodeRegistry).Keys, maxNodes, exports, allResults.Keys)
      ensures error.None? ==> history == old(history) + ops && Grows(old(nodeRegistry), ops, nodeRegistry)
      ensures error.Some? ==> history == old(history) && nodeRegistry == old(nodeRegistry)
    {
      error := ValidateEmittedSubgraph(ops, nodeRegistry.Keys, maxNodes, exports, allResults.Keys);
      if error.None? {
        ghost var before := nodeRegistry;
        Register(ops);
        AdmitKeepsSafe(before, nodeRegistry, allResults, history, completed, ops, maxNodes, exports);
        history := history + ops;
      }
    }

    /** The ids of the current round's leaves and of its exports that are no leaves, as `build_round` lists them. */
    method ArchivedIds() returns (ids: seq<Id>)
      ensures Elems(ids) == Archived(currentSubgraph, currentExport)
    {
      var leaves := CurrentLeaves(currentSubgraph);
      ids := leaves;
      for i := 0 to |currentSubgraph|
        invariant forall id :: id in ids <==>
          || IsLeaf(currentSubgraph, id)
          || (id in currentExport && exists k :: 0 <= k < i && currentSubgraph[k].id == id)
      {
        var id := currentSubgraph[i].id;
        if id in currentExport && id !in leaves {
          ids := ids + [id];
        }
      }
      forall id ensures id in ids <==> id in Archived(currentSubgraph, currentExport) {
        if id in OpIds(currentSubgraph) {
          var op :| op in currentSubgraph && op.id == id;
          var k :| 0 <= k < |currentSubgraph| && currentSubgraph[k] == op;
        }
      }
    }

    /** What the current round's references can read. */
    ghost function View(): (st: Store)
      reads this
    {
      References.Store(allResults, nodeRegistry, rows)
    }

    /** `build_round`: forward the references to earlier rounds, then compile; `round` is what was compiled. */
    method BuildRound() returns (error: Option<BuildError>, ghost round: seq<W.OpEntry>)
      requires Ready()
      ensures error.None? <==> Buildable(Now(), rows)
      ensures error.Some? ==> (error.value.ForwardFailed? <==> !CanForwardFrom(View(), RoundRefs(currentSubgraph), 0))
      ensures error.None? ==> IsRoundGraph(currentSubgraph, View(), OpIds(RanIn(completed)), round)
    {
      ResultsAreRegistered();
      round := [];
      var st := References.Store(allResults, nodeRegistry, rows);
      var forwarded, origins, decoded := ForwardRefs(st, currentSubgraph);
      if forwarded.Err? {
        return Some(ForwardFailed(forwarded.error)), round;
      }
      ReadyRoundCompiles(forwarded.value, origins, decoded);
      var compiled := W.CompileWorkflow(RoundInputs(forwarded.value), RoundOps(forwarded.value));
      if compiled.Err? {
        return Some(CompileFailed(compiled.error)), round;
      }
      error, round := None, RoundOps(forwarded.value);
    }

    lemma ResultsAreRegistered()
      requires Safe()
      ensures allResults.Keys <= OpIds(RanIn(completed)) <= nodeRegistry.Keys
    {
      ArchivedRan(completed);
      assert forall op :: op in RanIn(completed) ==> op in history;
    }

    /** A round that was forwarded compiles exactly when its names stay apart, and recomputes nothing. */
    lemma ReadyRoundCompiles(f: Forwarded, origins: map<Id, Origin>, decoded: seq<(Id, string)>)
      requires Ready() && IsForwarding(View(), currentSubgraph, f, origins, decoded)
      ensures W.Compiles(RoundInputs(f), RoundOps(f)) <==> NamesApart(View(), currentSubgraph)
      ensures IsRoundGraph(currentSubgraph, View(), OpIds(RanIn(completed)), RoundOps(f))
    {
      ResultsAreRegistered();
      RoundRecomputesNothing(View(), currentSubgraph, f, origins, decoded);
      if currentSubgraph == [] {
        EmptyRoundCompiles(View(), f, origins, decoded);
      } else {
        PriorIsRan();
        AdmittedRoundCompiles(View(), currentSubgraph, maxNodes, currentExport, f, origins, decoded);
      }
    }

    lemma PriorIsRan()
      requires Ready() && currentSubgraph != []
      ensures Prior(nodeRegistry, currentSubgraph) == OpIds(RanIn(completed))
    {
      forall op | op in currentSubgraph ensures op.id !in OpIds(RanIn(completed)) {}
      assert OpIds(history) == OpIds(RanIn(completed)) + OpIds(currentSubgraph);
    }

    /** The child runs: its outputs are extracted and stored, and the next subgraph is admitted. */
    method RunChild(event: Event) returns (status: Status)
      requires Ready() && (external ==> roundIndex > 0) && !event.outcome.NotStarted?
      modifies this
      ensures Safe() && Extends(nodeRegistry, old(nodeRegistry))
      ensures status.Continue? ==> Ready()
      ensures RanChild(Bounds(), old(Now()), event, status, Now())
    {
      children := children + 1;
      if event.outcome.NotCompleted? {
        return Failed;
      }
      var stored := StoreRound(event.outcome.items, event.reply);
      if !stored {
        return Failed;
      }
      if event.reply.Stop? {
        return Stopped;
      }
      status := AdmitNext(event.reply);
    }

    /** Extracts the archived outputs and stores them, unless one is missing or the reply cannot be read. */
    method StoreRound(items: map<Id, seq<Item>>, reply: Reply) returns (stored: bool)
      requires Safe() && history == RanIn(completed) + currentSubgraph
      modifies this`allResults, this`completed
      ensures Safe()
      ensures stored <==> Extracted(currentSubgraph, currentExport, items) && !reply.Malformed?
      ensures stored ==> history == RanIn(completed)
      ensures Now() == if stored then WithArchive(old(Now()), items) else old(Now())
    {
      var ids := ArchivedIds();
      assert forall id :: id in ids <==> id in Elems(ids);
      if (exists id :: id in ids && id !in items) || reply.Malformed? {
        return false;
      }
      StoreResults(ids, items);
      stored := true;
    }

    /** Admits a subgraph and makes it the current one. */
    method AdmitNext(reply: Reply) returns (status: Status)
      requires Safe() && history == RanIn(completed) && reply.Subgraph?
      requires children <= roundIndex + 1 && (external ==> children <= roundIndex)
      modifies this`nodeRegistry, this`history, this`currentSubgraph, this`currentExport, this`roundIndex
      ensures Safe() && Extends(nodeRegistry, old(nodeRegistry))
      ensures status.Continue? ==> Ready() && roundIndex == old(roundIndex) + 1
      ensures Answered(Bounds(), old(Now()), reply, status, Now())
    {
      var error := Admit(reply.ops, reply.exports);
      if error.Some? {
        return Failed;
      }
      currentSubgraph, currentExport := reply.ops, reply.exports;
      roundIndex := roundIndex + 1;
      status := Continue;
    }

    /** One pass of the loop after round 0 of an external planner. */
    method RunRound(event: Event) returns (status: Status, ghost round: seq<W.OpEntry>)
      requires Ready() && roundIndex < maxRounds && (external ==> roundIndex > 0)
      modifies this
      ensures Safe() && Extends(nodeRegistry, old(nodeRegistry))
      ensures RanRound(Bounds(), old(Now()), event, status, Now())
      ensures children > old(children) ==> IsRoundGraph(old(currentSubgraph), old(View()), OpIds(RanIn(old(completed))), round)
      ensures status.Continue? ==> Ready()
    {
      var error;
      error, round := BuildRound();
      if error.Some? {
        return Failed, round;
      }
      if event.outcome.NotStarted? {
        return Interrupted, round;
      }
      status := RunChild(event);
    }

    /** Stores the archived outputs of the round that just completed. */
    method StoreResults(ids: seq<Id>, items: map<Id, seq<Item>>)
      requires Safe() && history == RanIn(completed) + currentSubgraph
      requires Elems(ids) == Archived(currentSubgraph, currentExport)
      requires (forall id :: id in ids ==> id in items) && Extracted(currentSubgraph, currentExport, items)
      modifies this`allResults, this`completed
      ensures Safe() && history == RanIn(completed)
      ensures completed == old(completed) + [Round(currentSubgraph, currentExport)]
      ensures allResults == Stored(old(allResults), currentSubgraph, currentExport, items)
    {
      ghost var before := allResults;
      StoreItems(ids, items);
      StoredIs(before, allResults, currentSubgraph, currentExport, Elems(ids), items);
      StoreKeepsSafe(
        nodeRegistry, before, allResults, history, completed, Round(currentSubgraph, currentExport));
      completed := completed + [Round(currentSubgraph, currentExport)];
    }

    method StoreItems(ids: seq<Id>, items: map<Id, seq<Item>>)
      requires forall id :: id in ids ==> id in items
      modifies this`allResults
      ensures allResults.Keys == old(allResults).Keys + Elems(ids)
      ensures forall id :: id in allResults ==> allResults[id] == if id in Elems(ids) then items[id] else old(allResults)[id]
    {
      ghost var before := allResults;
      for i := 0 to |ids|
        invariant allResults.Keys == before.Keys + Elems(ids[..i])
        invariant forall id :: id in allResults ==> allResults[id] == if id in Elems(ids[..i]) then items[id] else before[id]
      {
        assert ids[i] in ids;
        allResults := allResults[ids[i] := items[ids[i]]];
        assert Elems(ids[..i + 1]) == Elems(ids[..i]) + {ids[i]} by {
          assert ids[..i + 1] == ids[..i] + [ids[i]];
        }
      }
      assert ids[..|ids|] == ids;
    }

    /** Round 0 with an external planner: the first subgraph is asked for, no child is created. */
    method AskFirst(reply: Reply) returns (status: Status)
      requires Ready() && external && roundIndex == 0 && roundIndex < maxRounds && currentSubgraph == []
      modifies this`nodeRegistry, this`history, this`currentSubgraph, this`currentExport, this`roundIndex
      ensures Safe() && Extends(nodeRegistry, old(nodeRegistry))
      ensures status.Continue? ==> Ready() && roundIndex == 1
      ensures Answered(Bounds(), old(Now()), reply, status, Now())
    {
      if reply.Malformed? {
        return Failed;
      }
      if reply.Stop? {
        return Stopped;
      }
      status := AdmitNext(reply);
    }

    /** The whole loop, against any planner and any children. */
    method Run(first: Reply, events: nat -> Event)
      returns (status: Status, ghost registries: seq<map<Id, PlanOp>>, ghost turns: seq<TurnTaken>)
      requires Ready() && roundIndex == 0 && children == 0 && currentSubgraph == [] && completed == []
      modifies this
      ensures Safe()
      ensures Acyclic(W.RefGraph(Entries(history)))
      ensures forall i, j :: 0 <= i < j < |RanIn(completed)| ==> RanIn(completed)[i].id != RanIn(completed)[j].id
      ensures children <= maxRounds && (external && maxRounds > 0 ==> children < maxRounds)
      ensures |completed| <= children
      ensures Recorded(registries, nodeRegistry)
      ensures status.Continue? ==> roundIndex == maxRounds
      ensures IsRunOf(Bounds(), first, events, old(Now()), turns, status, Now()) && IsOver(Bounds(), status, Now())
    {
      status := Continue;
      registries, turns := [nodeRegistry], [];
      ghost var start := Now();
      while roundIndex < maxRounds && status.Continue?
        invariant Safe() && InLoop(status)
        invariant Recorded(registries, nodeRegistry)
        invariant IsRunOf(Bounds(), first, events, start, turns, status, Now())
        decreases status.Continue?, maxRounds - roundIndex
      {
        status, registries, turns := NextTurn(first, events, start, registries, turns);
      }
      SafeFacts();
    }

    /** One pass of the loop, with what it adds to the record of the run. */
    method NextTurn(
        first: Reply, events: nat -> Event, ghost start: RunState, ghost registries: seq<map<Id, PlanOp>>,
        ghost turns: seq<TurnTaken>)
      returns (status: Status, ghost registries': seq<map<Id, PlanOp>>, ghost turns': seq<TurnTaken>)
      requires Safe() && InLoop(Continue) && roundIndex < maxRounds
      requires Recorded(registries, nodeRegistry)
      requires IsRunOf(Bounds(), first, events, start, turns, Continue, Now())
      modifies this
      ensures Safe() && InLoop(status)
      ensures Recorded(registries', nodeRegistry)
      ensures IsRunOf(Bounds(), first, events, start, turns', status, Now())
      ensures status.Continue? ==> roundIndex == old(roundIndex) + 1
    {
      ghost var before := Now();
      status := Turn(first, events(roundIndex));
      turns' := turns + [TurnTaken(before, status, Now())];
      AppendTurn(Bounds(), first, events, start, turns, before, TurnTaken(before, status, Now()));
      OneMoreRegistry(registries, nodeRegistry);
      registries' := registries + [nodeRegistry];
    }

    ghost predicate InLoop(status: Status)
      reads this
    {
      && (status.Continue? ==> Ready() && roundIndex <= maxRounds)
      && (status.Continue? && external && roundIndex == 0 ==> currentSubgraph == [])
      && children <= maxRounds && (external && maxRounds > 0 ==> children < maxRounds)
      && |completed| <= children
    }

    /** One pass of the loop. */
    method Turn(first: Reply, event: Event) returns (status: Status)
      requires InLoop(Continue) && roundIndex < maxRounds
      modifies this
      ensures Safe() && InLoop(status) && Extends(nodeRegistry, old(nodeRegistry))
      ensures status.Continue? ==> roundIndex == old(roundIndex) + 1
      ensures TookTurn(Bounds(), first, event, old(Now()), status, Now())
    {
      if external && roundIndex == 0 {
        status := AskFirst(first);
      } else {
        ghost var round;
        status, round := RunRound(event);
      }
    }

    lemma SafeFacts()
      requires Safe()
      ensures Acyclic(W.RefGraph(Entries(history)))
      ensures forall i, j :: 0 <= i < j < |RanIn(completed)| ==> RanIn(completed)[i].id != RanIn(completed)[j].id
    {
      assert forall op :: op in history ==> op.id in nodeRegistry;
      HistoryIsAcyclic(history);
    }
  }
}
