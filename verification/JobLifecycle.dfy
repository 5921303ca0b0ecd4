/**
 routes/jobs.py: the status of job records while submissions, runs, dynamic drivers, timeouts,
 cancellations and shutdown interleave.  Every step is one section held under `jobs_lock`
 (or one stretch of code without a suspension point), so a run of the server is a sequence
 of steps; `JobTable` holds the records, and its methods are the sections.
 */
module JobLifecycle {
  import opened Sequences

  type Id = string

  datatype Status = Pending | Running | Completed | Failed | Cancelled

  predicate Terminal(status: Status) {
    status == Completed || status == Failed || status == Cancelled
  }

  datatype Record = Record(status: Status, parent: Option<Id>, children: seq<Id>)

  /** Where a dynamic parent's driver stands: between rounds, awaiting a child, about to write its own end, gone. */
  datatype Phase = Between | Awaiting(child: Id) | Ending | Gone

  /** Where one cancellation stands: parent written, loop at child `i`, child `i` written and the backend asked, returned. */
  datatype Cancel =
    | Marked(target: Id)
    | Looping(target: Id, snapshot: seq<Id>, i: nat)
    | Asking(target: Id, snapshot: seq<Id>, i: nat)
    | Returned(target: Id)

  datatype State = State(records: map<Id, Record>, drivers: map<Id, Phase>, cancels: map<nat, Cancel>)

  const INITIAL := State(map[], map[], map[])

  function Write(records: map<Id, Record>, id: Id, status: Status): (r: map<Id, Record>)
  {
    if id in records then records[id := records[id].(status := status)] else records
  }

  /** The write every section but two makes: only onto a record that is not terminal. */
  function GuardedWrite(records: map<Id, Record>, id: Id, status: Status): (r: map<Id, Record>)
  {
    if id in records && !Terminal(records[id].status) then Write(records, id, status) else records
  }

  // ----- the steps ------------------------------------------------------------------------

  datatype Step =
    | SubmitStatic(id: Id)
    | SubmitDynamic(id: Id)
    | StartRun(id: Id)
    | FinishRun(id: Id, end: Status)
    | Shutdown
    | AddChild(parent: Id, child: Id)
    | TimeOutChild(parent: Id, end: Status)
    | ReadChild(parent: Id)
    | EndDriver(parent: Id, end: Status)
    | RequestCancel(token: nat, id: Id)
    | SnapshotChildren(token: nat)
    | CancelNext(token: nat)
    | BackendAnswer(token: nat, failed: bool)

  /**
   The step can happen: ids drawn are new, and the program counter named by the step is where it starts.
   A child is read after its task has returned without being timed out, which leaves its record terminal.
   */
  ghost predicate Enabled(s: State, step: Step) {
    match step
    case SubmitStatic(id) => id !in s.records
    case SubmitDynamic(id) => id !in s.records
    case StartRun(id) => id in s.records
    case FinishRun(id, end) => id in s.records && Terminal(end)
    case Shutdown => true
    case AddChild(p, c) => p in s.drivers && s.drivers[p] == Between && c !in s.records
    case TimeOutChild(p, end) => p in s.drivers && s.drivers[p].Awaiting? && end in {Failed, Cancelled}
    case ReadChild(p) => p in s.drivers && s.drivers[p].Awaiting? && IsTerminal(s.records, s.drivers[p].child)
    case EndDriver(p, end) =>
      p in s.drivers && s.drivers[p] != Gone && Terminal(end) && (end == Completed ==> s.drivers[p] == Between)
    case RequestCancel(k, id) => k !in s.cancels && id in s.records
    case SnapshotChildren(k) => k in s.cancels && s.cancels[k].Marked?
    case CancelNext(k) => k in s.cancels && s.cancels[k].Looping?
    case BackendAnswer(k, failed) => k in s.cancels && s.cancels[k].Asking?
  }

  function FailActive(records: map<Id, Record>): (r: map<Id, Record>)
  {
    map id | id in records ::
      if Terminal(records[id].status) then records[id] else records[id].(status := Failed)
  }

  function After(s: State, step: Step): (t: State)
    requires Enabled(s, step)
  {
    match step
    case SubmitStatic(id) => s.(records := s.records[id := Record(Pending, None, [])])
    case SubmitDynamic(id) =>
      s.(records := s.records[id := Record(Pending, None, [])], drivers := s.drivers[id := Between])
    case StartRun(id) => s.(records := GuardedWrite(s.records, id, Running))
    case FinishRun(id, end) => s.(records := GuardedWrite(s.records, id, end))
    case Shutdown => s.(records := FailActive(s.records))
    case AddChild(p, c) =>
      if p !in s.records || Terminal(s.records[p].status) then s.(drivers := s.drivers[p := Gone])
      else s.(records := s.records[c := Record(Pending, Some(p), [])]
                                  [p := s.records[p].(children := s.records[p].children + [c])],
              drivers := s.drivers[p := Awaiting(c)])
    case TimeOutChild(p, end) =>
      s.(records := Write(s.records, s.drivers[p].child, end), drivers := s.drivers[p := Ending])
    case ReadChild(p) =>
      var c := s.drivers[p].child;
      var done := c in s.records && s.records[c].status == Completed;
      s.(drivers := s.drivers[p := if done then Between else Ending])
    case EndDriver(p, end) => s.(records := GuardedWrite(s.records, p, end), drivers := s.drivers[p := Gone])
    case RequestCancel(k, id) =>
      if Terminal(s.records[id].status) then s
      else s.(records := Write(s.records, id, Cancelled), cancels := s.cancels[k := Marked(id)])
    case SnapshotChildren(k) =>
      var id := s.cancels[k].target;
      s.(cancels := s.cancels[k := Looping(id, if id in s.records then s.records[id].children else [], 0)])
    case CancelNext(k) =>
      var Looping(id, snapshot, i) := s.cancels[k];
      if i >= |snapshot| then s.(cancels := s.cancels[k := Returned(id)])
      else if snapshot[i] !in s.records || Terminal(s.records[snapshot[i]].status) then
        s.(cancels := s.cancels[k := Looping(id, snapshot, i + 1)])
      else
        s.(records := Write(s.records, snapshot[i], Cancelled), cancels := s.cancels[k := Asking(id, snapshot, i)])
    case BackendAnswer(k, failed) =>
      var Asking(id, snapshot, i) := s.cancels[k];
      s.(records := if failed && i < |snapshot| then Write(s.records, snapshot[i], Failed) else s.records,
         cancels := s.cancels[k := Looping(id, snapshot, i + 1)])
  }

  // ----- what holds at every moment ----------------------------------------------------------

  ghost predicate IsTerminal(records: map<Id, Record>, id: Id) {
    id in records && Terminal(records[id].status)
  }

  ghost predicate IsCompleted(records: map<Id, Record>, id: Id) {
    id in records && records[id].status == Completed
  }

  /** A child names its parent, and every child before the last one is completed. */
  ghost predicate GoodFamily(records: map<Id, Record>, p: Id)
    requires p in records
  {
    var children := records[p].children;
    && (children != [] ==> records[p].parent == None)
    && (forall c :: c in children ==> c in records && records[c].parent == Some(p))
    && (forall i :: 0 <= i < |children| - 1 ==> IsCompleted(records, children[i]))
    && NoDup(children)
  }

  ghost predicate GoodDriver(records: map<Id, Record>, p: Id, phase: Phase) {
    && p in records && records[p].parent == None
    && (phase == Between ==> forall c :: c in records[p].children ==> IsCompleted(records, c))
    && (phase.Awaiting? ==> records[p].children != [] && records[p].children[|records[p].children| - 1] == phase.child)
  }

  /** A cancellation holds its target terminal, and every child it has passed. */
  ghost predicate GoodCancel(records: map<Id, Record>, cancel: Cancel) {
    && IsTerminal(records, cancel.target)
    && (cancel.Looping? || cancel.Asking? ==>
          cancel.snapshot == records[cancel.target].children && cancel.i <= |cancel.snapshot| &&
          forall j :: 0 <= j < cancel.i ==> IsTerminal(records, cancel.snapshot[j]))
    && (cancel.Asking? ==>
          cancel.i < |cancel.snapshot| && IsTerminal(records, cancel.snapshot[cancel.i]) &&
          !IsCompleted(records, cancel.snapshot[cancel.i]))
    && (cancel.Returned? ==>
          forall c :: c in records[cancel.target].children ==> IsTerminal(records, c))
  }

  ghost predicate Consistent(s: State) {
    && (forall p {:trigger GoodFamily(s.records, p)} :: p in s.records ==> GoodFamily(s.records, p))
    && (forall p {:trigger GoodDriver(s.records, p, s.drivers[p])} :: p in s.drivers ==> GoodDriver(s.records, p, s.drivers[p]))
    && (forall k {:trigger GoodCancel(s.records, s.cancels[k])} :: k in s.cancels ==> GoodCancel(s.records, s.cancels[k]))
  }

  // ----- what one step may do to a record ------------------------------------------------------

  /** Terminal stays terminal and adds no child; a terminal root keeps its very status. */
  ghost predicate RecordEvolves(a: Record, b: Record) {
    && b.parent == a.parent
    && a.children <= b.children
    && (Terminal(a.status) ==> Terminal(b.status) && b.children == a.children)
    && (Terminal(a.status) && a.parent == None ==> b.status == a.status)
    && (Terminal(a.status) && a.status != Completed ==> b.status != Completed)
  }

  ghost predicate Evolves(r: map<Id, Record>, r': map<Id, Record>) {
    forall id :: id in r ==> id in r' && RecordEvolves(r[id], r'[id])
  }

  /** Completed records stay completed, but for `loose`. */
  ghost predicate KeepsCompleted(r: map<Id, Record>, r': map<Id, Record>, loose: Option<Id>) {
    forall id :: IsCompleted(r, id) && loose != Some(id) ==> IsCompleted(r', id)
  }

  /** No family changes: new records, if any, are roots without children. */
  ghost predicate SameFamilies(r: map<Id, Record>, r': map<Id, Record>) {
    && (forall id :: id in r ==> id in r' && r'[id].children == r[id].children && r'[id].parent == r[id].parent)
    && (forall id :: id in r' && id !in r ==> r'[id].children == [] && r'[id].parent == None)
  }

  ghost function Loose(s: State, step: Step): (loose: Option<Id>)
    requires Enabled(s, step)
  {
    if step.TimeOutChild? then Some(s.drivers[step.parent].child) else None
  }

  lemma LooseIsLast(s: State, step: Step)
    requires Consistent(s) && Enabled(s, step) && step.TimeOutChild?
    ensures
      var p, c := step.parent, s.drivers[step.parent].child;
      && p in s.records && s.records[p].children != [] && c == s.records[p].children[|s.records[p].children| - 1]
      && c in s.records && s.records[c].parent == Some(p)
  {
    var p := step.parent;
    assert GoodDriver(s.records, p, s.drivers[p]) && GoodFamily(s.records, p);
  }

  lemma AskedIsChild(s: State, k: nat)
    requires Consistent(s) && k in s.cancels && s.cancels[k].Asking?
    ensures
      var c := s.cancels[k];
      && c.target in s.records && c.i < |c.snapshot| && c.snapshot[c.i] in s.records
      && s.records[c.snapshot[c.i]].parent == Some(c.target)
      && Terminal(s.records[c.snapshot[c.i]].status) && s.records[c.snapshot[c.i]].status != Completed
  {
    var c := s.cancels[k];
    assert GoodCancel(s.records, c);
    assert GoodFamily(s.records, c.target);
    assert c.snapshot[c.i] in s.records[c.target].children;
  }

  lemma WriteEvolves(r: map<Id, Record>, id: Id, status: Status)
    requires id in r
    requires Terminal(r[id].status) ==> Terminal(status) && r[id].parent.Some? && status != Completed
    ensures Evolves(r, Write(r, id, status)) && SameFamilies(r, Write(r, id, status))
    ensures KeepsCompleted(r, Write(r, id, status), Some(id))
    ensures r[id].status != Completed ==> KeepsCompleted(r, Write(r, id, status), None)
  {
  }

  lemma GuardedWriteEvolves(r: map<Id, Record>, id: Id, status: Status)
    ensures Evolves(r, GuardedWrite(r, id, status)) && SameFamilies(r, GuardedWrite(r, id, status))
    ensures KeepsCompleted(r, GuardedWrite(r, id, status), None)
  {
    if id in r && !Terminal(r[id].status) {
      WriteEvolves(r, id, status);
    }
  }

  lemma CancelStepEvolves(s: State, step: Step)
    requires Consistent(s) && Enabled(s, step)
    requires step.RequestCancel? || step.SnapshotChildren? || step.CancelNext? || step.BackendAnswer?
    ensures Evolves(s.records, After(s, step).records)
    ensures KeepsCompleted(s.records, After(s, step).records, None)
    ensures SameFamilies(s.records, After(s, step).records)
  {
    match step
    case RequestCancel(k, id) => GuardedWriteEvolves(s.records, id, Cancelled);
    case SnapshotChildren(k) =>
    case CancelNext(k) =>
      var c := s.cancels[k];
      if c.i < |c.snapshot| {
        GuardedWriteEvolves(s.records, c.snapshot[c.i], Cancelled);
      }
    case BackendAnswer(k, failed) =>
      AskedIsChild(s, k);
      if failed {
        WriteEvolves(s.records, s.cancels[k].snapshot[s.cancels[k].i], Failed);
      }
  }

  lemma StepEvolves(s: State, step: Step)
    requires Consistent(s) && Enabled(s, step)
    ensures Evolves(s.records, After(s, step).records)
    ensures KeepsCompleted(s.records, After(s, step).records, Loose(s, step))
    ensures !step.AddChild? ==> SameFamilies(s.records, After(s, step).records)
  {
    match step
    case SubmitStatic(id) =>
    case SubmitDynamic(id) =>
    case StartRun(id) => GuardedWriteEvolves(s.records, id, Running);
    case FinishRun(id, end) => GuardedWriteEvolves(s.records, id, end);
    case Shutdown =>
    case AddChild(p, c) =>
    case TimeOutChild(p, end) =>
      LooseIsLast(s, step);
      WriteEvolves(s.records, s.drivers[p].child, end);
    case ReadChild(p) =>
    case EndDriver(p, end) => GuardedWriteEvolves(s.records, p, end);
    case _ => CancelStepEvolves(s, step);
  }

  // ----- the invariant is kept ---------------------------------------------------------------------

  lemma CancelKept(r: map<Id, Record>, r': map<Id, Record>, cancel: Cancel)
    requires GoodCancel(r, cancel) && Evolves(r, r')
    ensures GoodCancel(r', cancel)
  {
    assert RecordEvolves(r[cancel.target], r'[cancel.target]);
  }

  lemma FamilyKept(r: map<Id, Record>, r': map<Id, Record>, loose: Option<Id>, p: Id)
    requires p in r && GoodFamily(r, p) && SameFamilies(r, r') && KeepsCompleted(r, r', loose)
    requires loose.Some? ==> loose.value in r && r[loose.value].parent.Some?
    requires loose.Some? && r[loose.value].parent == Some(p) ==>
               r[p].children != [] && loose.value == r[p].children[|r[p].children| - 1]
    ensures GoodFamily(r', p)
  {
    var children := r[p].children;
    forall i | 0 <= i < |children| - 1 ensures IsCompleted(r', children[i]) {
      assert IsCompleted(r, children[i]);
      assert children[i] in children && r[children[i]].parent == Some(p);
      assert children[i] != children[|children| - 1];
    }
  }

  lemma DriverKept(r: map<Id, Record>, r': map<Id, Record>, loose: Option<Id>, p: Id, phase: Phase)
    requires GoodDriver(r, p, phase) && GoodFamily(r, p) && SameFamilies(r, r') && KeepsCompleted(r, r', loose)
    requires loose.Some? && loose.value in r ==> r[loose.value].parent != Some(p)
    ensures GoodDriver(r', p, phase)
  {
    if phase == Between {
      forall c | c in r[p].children ensures IsCompleted(r', c) {
        assert IsCompleted(r, c);
      }
    }
  }

  lemma AddChildKeeps(s: State, p: Id, c: Id)
    requires Consistent(s) && Enabled(s, AddChild(p, c))
    ensures Consistent(After(s, AddChild(p, c)))
  {
    var t := After(s, AddChild(p, c));
    var r, r' := s.records, t.records;
    StepEvolves(s, AddChild(p, c));
    forall k | k in t.cancels ensures GoodCancel(r', t.cancels[k]) {
      CancelKept(r, r', s.cancels[k]);
    }
    assert GoodDriver(r, p, Between) && GoodFamily(r, p);
    forall q | q in r' ensures GoodFamily(r', q) {
      if q in r && q != p {
        OtherFamilyKept(r, r', p, c, q);
      } else if q == p && r != r' {
        GrownFamily(r, r', p, c);
      }
    }
    forall q | q in t.drivers ensures GoodDriver(r', q, t.drivers[q]) {
      assert GoodDriver(r, q, s.drivers[q]);
      if q != p {
        OtherDriverKept(r, r', p, c, q, s.drivers[q]);
      }
    }
  }

  lemma OtherFamilyKept(r: map<Id, Record>, r': map<Id, Record>, p: Id, c: Id, q: Id)
    requires p in r && q in r && q != p && c !in r && GoodFamily(r, q)
    requires r' == r || r' == r[c := Record(Pending, Some(p), [])][p := r[p].(children := r[p].children + [c])]
    ensures GoodFamily(r', q)
  {
    forall i | 0 <= i < |r[q].children| - 1 ensures IsCompleted(r', r[q].children[i]) {
      assert IsCompleted(r, r[q].children[i]);
    }
  }

  lemma GrownFamily(r: map<Id, Record>, r': map<Id, Record>, p: Id, c: Id)
    requires p in r && c !in r && GoodFamily(r, p) && GoodDriver(r, p, Between)
    requires r' == r[c := Record(Pending, Some(p), [])][p := r[p].(children := r[p].children + [c])]
    ensures GoodFamily(r', p)
  {
    var children := r'[p].children;
    forall i | 0 <= i < |children| - 1 ensures IsCompleted(r', children[i]) {
      assert children[i] == r[p].children[i] && children[i] in r[p].children;
      assert IsCompleted(r, children[i]);
    }
  }

  lemma OtherDriverKept(r: map<Id, Record>, r': map<Id, Record>, p: Id, c: Id, q: Id, phase: Phase)
    requires p in r && q != p && c !in r && GoodDriver(r, q, phase)
    requires r' == r || r' == r[c := Record(Pending, Some(p), [])][p := r[p].(children := r[p].children + [c])]
    ensures GoodDriver(r', q, phase)
  {
    if phase == Between {
      forall d | d in r[q].children ensures IsCompleted(r', d) {
        assert IsCompleted(r, d);
      }
    }
  }

  lemma FamiliesKept(s: State, step: Step)
    requires Consistent(s) && Enabled(s, step) && !step.AddChild?
    ensures var t := After(s, step); forall p :: p in t.records ==> GoodFamily(t.records, p)
  {
    var t := After(s, step);
    StepEvolves(s, step);
    if step.TimeOutChild? {
      LooseIsLast(s, step);
    }
    forall p | p in t.records ensures GoodFamily(t.records, p) {
      if p in s.records {
        FamilyKept(s.records, t.records, Loose(s, step), p);
      }
    }
  }

  lemma DriversKept(s: State, step: Step)
    requires Consistent(s) && Enabled(s, step) && !step.AddChild?
    ensures var t := After(s, step); forall p :: p in t.drivers ==> GoodDriver(t.records, p, t.drivers[p])
  {
    var t := After(s, step);
    StepEvolves(s, step);
    if step.TimeOutChild? {
      LooseIsLast(s, step);
    }
    forall p | p in t.drivers ensures GoodDriver(t.records, p, t.drivers[p]) {
      if p in s.drivers {
        var phase := s.drivers[p];
        assert GoodDriver(s.records, p, phase) && GoodFamily(s.records, p);
        if !(step.TimeOutChild? && step.parent == p) {
          DriverKept(s.records, t.records, Loose(s, step), p, phase);
        }
        if step == ReadChild(p) && t.drivers[p] == Between {
          ReadCompleted(s, p);
        }
      }
    }
  }

  /** The driver goes on only when its child, the last one, is completed; then all of them are. */
  lemma ReadCompleted(s: State, p: Id)
    requires Consistent(s) && Enabled(s, ReadChild(p)) && After(s, ReadChild(p)).drivers[p] == Between
    ensures p in s.records && forall c :: c in s.records[p].children ==> IsCompleted(s.records, c)
  {
    assert GoodDriver(s.records, p, s.drivers[p]) && GoodFamily(s.records, p);
    var children := s.records[p].children;
    forall c | c in children ensures IsCompleted(s.records, c) {
      var i :| 0 <= i < |children| && children[i] == c;
    }
  }

  /** A cancellation's own step keeps what it has established, and passes or terminates one more child. */
  lemma OwnCancelKept(s: State, step: Step, k: nat)
    requires Consistent(s) && Enabled(s, step)
    requires step == SnapshotChildren(k) || step == CancelNext(k) || exists failed :: step == BackendAnswer(k, failed)
    requires Evolves(s.records, After(s, step).records)
    ensures GoodCancel(After(s, step).records, After(s, step).cancels[k])
  {
    var r, r' := s.records, After(s, step).records;
    var c, c' := s.cancels[k], After(s, step).cancels[k];
    CancelKept(r, r', c);
    if c.Marked? {
      assert GoodCancel(r', c);
    } else {
      forall j | 0 <= j < |c.snapshot| && j <= c.i && (j == c.i ==> c' != Returned(c.target))
        ensures IsTerminal(r', c.snapshot[j])
      {
        assert j < c.i ==> IsTerminal(r', c.snapshot[j]);
        assert j == c.i ==> c.snapshot[j] in r[c.target].children && GoodFamily(r, c.target);
      }
    }
  }

  lemma CancelsKept(s: State, step: Step)
    requires Consistent(s) && Enabled(s, step) && !step.AddChild?
    ensures var t := After(s, step); forall k :: k in t.cancels ==> GoodCancel(t.records, t.cancels[k])
  {
    var t := After(s, step);
    StepEvolves(s, step);
    forall k | k in t.cancels ensures GoodCancel(t.records, t.cancels[k]) {
      if (step.SnapshotChildren? || step.CancelNext? || step.BackendAnswer?) && step.token == k {
        OwnCancelKept(s, step, k);
      } else if k in s.cancels {
        assert t.cancels[k] == s.cancels[k];
        CancelKept(s.records, t.records, s.cancels[k]);
      }
    }
  }

  lemma StepKeepsConsistent(s: State, step: Step)
    requires Consistent(s) && Enabled(s, step)
    ensures Consistent(After(s, step))
  {
    if step.AddChild? {
      AddChildKeeps(s, step.parent, step.child);
    } else {
      FamiliesKept(s, step);
      DriversKept(s, step);
      CancelsKept(s, step);
    }
  }

  // ----- whole runs ------------------------------------------------------------------------------

  ghost predicate StepAt(states: seq<State>, steps: seq<Step>, i: nat)
    requires i < |steps| && |states| == |steps| + 1
  {
    Enabled(states[i], steps[i]) && states[i + 1] == After(states[i], steps[i])
  }

  ghost predicate IsRun(states: seq<State>, steps: seq<Step>) {
    && |states| == |steps| + 1
    && states[0] == INITIAL
    && forall i {:trigger StepAt(states, steps, i)} :: 0 <= i < |steps| ==> StepAt(states, steps, i)
  }

  lemma {:induction false} RunIsConsistent(states: seq<State>, steps: seq<Step>, i: nat)
    requires IsRun(states, steps) && i <= |steps|
    ensures Consistent(states[i])
  {
    if i > 0 {
      RunIsConsistent(states, steps, i - 1);
      assert StepAt(states, steps, i - 1);
      StepKeepsConsistent(states[i - 1], steps[i - 1]);
    }
  }

  lemma {:induction false} RunEvolves(states: seq<State>, steps: seq<Step>, i: nat, j: nat)
    requires IsRun(states, steps) && i <= j <= |steps|
    ensures Evolves(states[i].records, states[j].records)
    decreases j - i
  {
    if i < j {
      RunEvolves(states, steps, i, j - 1);
      RunIsConsistent(states, steps, j - 1);
      assert StepAt(states, steps, j - 1);
      StepEvolves(states[j - 1], steps[j - 1]);
      var r, r', r'' := states[i].records, states[j - 1].records, states[j].records;
      forall id | id in r ensures id in r'' && RecordEvolves(r[id], r''[id]) {
        assert RecordEvolves(r[id], r'[id]) && RecordEvolves(r'[id], r''[id]);
      }
    }
  }

  /** Once a job is terminal it gains no child, stays terminal, and a root keeps its status. */
  lemma TerminalIsFinal(states: seq<State>, steps: seq<Step>, i: nat, j: nat, id: Id)
    requires IsRun(states, steps) && i <= j <= |steps|
    requires IsTerminal(states[i].records, id)
    ensures IsTerminal(states[j].records, id)
    ensures states[j].records[id].children == states[i].records[id].children
    ensures states[i].records[id].parent == None ==> states[j].records[id] == states[i].records[id]
    ensures states[i].records[id].status != Completed ==> states[j].records[id].status != Completed
  {
    RunEvolves(states, steps, i, j);
    assert RecordEvolves(states[i].records[id], states[j].records[id]);
  }

  /** When a cancellation has returned, its job and all children are terminal, then and ever after. */
  lemma CancelLeavesNoLiveChild(states: seq<State>, steps: seq<Step>, i: nat, j: nat, token: nat)
    requires IsRun(states, steps) && i <= j <= |steps|
    requires token in states[i].cancels && states[i].cancels[token].Returned?
    ensures
      var id := states[i].cancels[token].target;
      && id in states[i].records && IsTerminal(states[j].records, id)
      && states[i].records[id].children == states[j].records[id].children
      && forall c :: c in states[j].records[id].children ==> IsTerminal(states[j].records, c)
  {
    var id := states[i].cancels[token].target;
    RunIsConsistent(states, steps, i);
    assert GoodCancel(states[i].records, states[i].cancels[token]);
    TerminalIsFinal(states, steps, i, j, id);
    forall c | c in states[j].records[id].children ensures IsTerminal(states[j].records, c) {
      TerminalIsFinal(states, steps, i, j, c);
    }
  }

  /** Every child but the newest is completed, and so it stays: a dynamic run has at most one live child. */
  lemma OlderChildrenAreCompleted(states: seq<State>, steps: seq<Step>, i: nat, j: nat, p: Id, k: nat)
    requires IsRun(states, steps) && i <= j <= |steps|
    requires p in states[i].records && k + 1 < |states[i].records[p].children|
    ensures IsCompleted(states[j].records, states[i].records[p].children[k])
  {
    RunEvolves(states, steps, i, j);
    RunIsConsistent(states, steps, j);
    assert RecordEvolves(states[i].records[p], states[j].records[p]);
    assert GoodFamily(states[j].records, p);
  }

  /** A new child appears only while its parent is live. */
  lemma ChildJoinsLiveParent(states: seq<State>, steps: seq<Step>, i: nat, p: Id)
    requires IsRun(states, steps) && i < |steps| && p in states[i].records && p in states[i + 1].records
    requires states[i + 1].records[p].children != states[i].records[p].children
    ensures !Terminal(states[i].records[p].status)
  {
    RunEvolves(states, steps, i, i + 1);
    assert RecordEvolves(states[i].records[p], states[i + 1].records[p]);
  }

  // ----- children and their drivers -----------------------------------------------------------------

  /** A live child is the one its parent's driver is waiting for. */
  ghost predicate Awaited(s: State) {
    forall p, c {:trigger HasLiveChild(s.records, p, c)} ::
      HasLiveChild(s.records, p, c) ==> p in s.drivers && s.drivers[p] == Awaiting(c)
  }

  ghost predicate HasLiveChild(records: map<Id, Record>, p: Id, c: Id) {
    p in records && c in records[p].children && c in records && !Terminal(records[c].status)
  }

  /** The driver gives up by an unexpected error, such as a failed save, while its child is live. */
  ghost predicate Abandons(s: State, step: Step)
    requires Enabled(s, step)
  {
    step.EndDriver? && s.drivers[step.parent].Awaiting? && !IsTerminal(s.records, s.drivers[step.parent].child)
  }

  lemma LiveChildWasLive(s: State, step: Step, p: Id, c: Id)
    requires Consistent(s) && Enabled(s, step) && !step.AddChild?
    requires HasLiveChild(After(s, step).records, p, c)
    ensures HasLiveChild(s.records, p, c)
  {
    StepEvolves(s, step);
    assert p in s.records;
    assert GoodFamily(s.records, p);
    assert RecordEvolves(s.records[c], After(s, step).records[c]);
  }

  lemma AddedChildIsAwaited(s: State, p: Id, c: Id)
    requires Consistent(s) && Enabled(s, AddChild(p, c)) && Awaited(s)
    ensures Awaited(After(s, AddChild(p, c)))
  {
    var t := After(s, AddChild(p, c));
    assert GoodDriver(s.records, p, Between);
    forall q, d | HasLiveChild(t.records, q, d) ensures q in t.drivers && t.drivers[q] == Awaiting(d) {
      if q == p {
        assert d in s.records[p].children ==> IsCompleted(s.records, d);
      } else if q in s.records {
        assert GoodFamily(s.records, q);
        assert HasLiveChild(s.records, q, d);
      }
    }
  }

  /** The only way for a live child to lose its driver is for the driver to abandon it. */
  lemma OrphanedOnlyByAbandoning(s: State, step: Step)
    requires Consistent(s) && Enabled(s, step) && Awaited(s)
    ensures Awaited(After(s, step)) <==> !Abandons(s, step)
  {
    var t := After(s, step);
    if step.AddChild? {
      AddedChildIsAwaited(s, step.parent, step.child);
    } else if Abandons(s, step) {
      var p, c := step.parent, s.drivers[step.parent].child;
      assert GoodDriver(s.records, p, s.drivers[p]) && GoodFamily(s.records, p);
      assert c in s.records[p].children && s.records[c].parent == Some(p);
      assert HasLiveChild(t.records, p, c);
    } else {
      forall p, c | HasLiveChild(t.records, p, c) ensures p in t.drivers && t.drivers[p] == Awaiting(c) {
        LiveChildWasLive(s, step, p, c);
        assert s.drivers[p] == Awaiting(c);
        if step.TimeOutChild? && step.parent == p {
          LooseIsLast(s, step);
        }
      }
    }
  }

  /** In a run whose drivers never abandon a live child, no live child is ever left without its driver. */
  lemma {:induction false} NoOrphans(states: seq<State>, steps: seq<Step>, i: nat)
    requires IsRun(states, steps) && i <= |steps|
    requires forall k {:trigger StepAt(states, steps, k)} ::
               0 <= k < i && StepAt(states, steps, k) ==> !Abandons(states[k], steps[k])
    ensures Awaited(states[i])
  {
    if i > 0 {
      NoOrphans(states, steps, i - 1);
      RunIsConsistent(states, steps, i - 1);
      assert StepAt(states, steps, i - 1);
      OrphanedOnlyByAbandoning(states[i - 1], steps[i - 1]);
    }
  }

  /**
   After a shutdown every job there was is terminal for good: it gains no child, a root that was live
   stays failed, and a job that had ended keeps what it ended with.
   */
  lemma ShutdownEndsEveryJob(states: seq<State>, steps: seq<Step>, i: nat, j: nat, id: Id)
    requires IsRun(states, steps) && i < j <= |steps| && steps[i] == Shutdown && id in states[i].records
    ensures IsTerminal(states[j].records, id)
    ensures states[j].records[id].children == states[i].records[id].children
    ensures states[i].records[id].parent == None ==>
              states[j].records[id].status ==
                (if Terminal(states[i].records[id].status) then states[i].records[id].status else Failed)
    ensures states[i].records[id].status != Completed ==> states[j].records[id].status != Completed
  {
    assert StepAt(states, steps, i);
    TerminalIsFinal(states, steps, i + 1, j, id);
  }

  // ----- completed jobs that are relabelled -------------------------------------------------------------

  /** The write that a timed-out await makes onto its child. */
  ghost predicate TimesOut(s: State, step: Step, id: Id) {
    step.TimeOutChild? && step.parent in s.drivers && s.drivers[step.parent] == Awaiting(id)
  }

  /** A step takes the label off a completed job if and only if it is the timeout of the await on that job. */
  lemma CompletedLost(s: State, step: Step, id: Id)
    requires Consistent(s) && Enabled(s, step) && IsCompleted(s.records, id)
    ensures IsCompleted(After(s, step).records, id) <==> !TimesOut(s, step, id)
  {
    StepEvolves(s, step);
    if TimesOut(s, step, id) {
      LooseIsLast(s, step);
    }
  }

  /** Over whole runs: a completed job is still completed later if and only if no await on it has timed out since. */
  lemma {:induction false} RelabelledOnlyByTimeout(states: seq<State>, steps: seq<Step>, i: nat, j: nat, id: Id)
    requires IsRun(states, steps) && i <= j <= |steps| && IsCompleted(states[i].records, id)
    ensures IsCompleted(states[j].records, id) <==>
              forall k {:trigger StepAt(states, steps, k)} ::
                i <= k < j && StepAt(states, steps, k) ==> !TimesOut(states[k], steps[k], id)
    decreases j - i
  {
    if i < j {
      RelabelledOnlyByTimeout(states, steps, i, j - 1, id);
      RunIsConsistent(states, steps, j - 1);
      assert StepAt(states, steps, j - 1);
      TerminalIsFinal(states, steps, i, j - 1, id);
      TerminalIsFinal(states, steps, j - 1, j, id);
      if IsCompleted(states[j - 1].records, id) {
        CompletedLost(states[j - 1], steps[j - 1], id);
      }
    }
  }

  // ----- which label a record ends with -----------------------------------------------------------------

  predicate Live(records: map<Id, Record>, id: Id) {
    id in records && (records[id].status == Pending || records[id].status == Running)
  }

  /** The cancellation with this token is asking the backend about the child. */
  ghost predicate AsksAbout(s: State, token: nat, child: Id) {
    && token in s.cancels && s.cancels[token].Asking?
    && var c := s.cancels[token]; c.i < |c.snapshot| && c.snapshot[c.i] == child
  }

  /** The backend refuses to cancel the child. */
  ghost predicate Refuses(s: State, step: Step, id: Id) {
    step.BackendAnswer? && step.failed && AsksAbout(s, step.token, id)
  }

  /** A cancellation comes to the child in its loop. */
  ghost predicate ComesTo(s: State, step: Step, id: Id) {
    && step.CancelNext? && step.token in s.cancels && s.cancels[step.token].Looping?
    && var c := s.cancels[step.token]; c.i < |c.snapshot| && c.snapshot[c.i] == id
  }

  /** The steps that end a live job, with the label each gives it. */
  ghost predicate Ends(s: State, step: Step, id: Id, end: Status) {
    && Live(s.records, id)
    && (|| step == FinishRun(id, end) || step == EndDriver(id, end)
        || (step == Shutdown && end == Failed)
        || (step.RequestCancel? && step.id == id && end == Cancelled)
        || (ComesTo(s, step, id) && end == Cancelled)
        || (TimesOut(s, step, id) && step.end == end))
  }

  lemma LiveIsNotTerminal(records: map<Id, Record>, id: Id)
    requires id in records
    ensures Live(records, id) <==> !IsTerminal(records, id)
  {
  }

  /** `after` is the ending step's label; without one it says running after a start, and what it said before otherwise. */
  ghost predicate LabelFollows(s: State, step: Step, id: Id, after: Status)
    requires id in s.records
  {
    && (forall end :: Terminal(end) ==> (after == end <==> Ends(s, step, id, end)))
    && (!Terminal(after) ==> after == if step == StartRun(id) then Running else s.records[id].status)
  }

  /** A live job ends exactly by such a step, with exactly its label; otherwise it starts to run or stays as it is. */
  lemma LiveLabel(s: State, step: Step, id: Id)
    requires Consistent(s) && Enabled(s, step) && Live(s.records, id)
    ensures id in After(s, step).records && LabelFollows(s, step, id, After(s, step).records[id].status)
  {
    if step.RequestCancel? || step.SnapshotChildren? || step.CancelNext? || step.BackendAnswer? {
      LiveLabelInCancel(s, step, id);
    } else if step.AddChild? || step.TimeOutChild? || step.ReadChild? || step.EndDriver? {
      LiveLabelInDriver(s, step, id);
    } else {
      LiveLabelInRun(s, step, id);
    }
  }

  lemma LiveLabelInRun(s: State, step: Step, id: Id)
    requires Enabled(s, step) && Live(s.records, id)
    requires step.SubmitStatic? || step.SubmitDynamic? || step.StartRun? || step.FinishRun? || step.Shutdown?
    ensures id in After(s, step).records && LabelFollows(s, step, id, After(s, step).records[id].status)
  {
  }

  lemma LiveLabelInDriver(s: State, step: Step, id: Id)
    requires Enabled(s, step) && Live(s.records, id)
    requires step.AddChild? || step.TimeOutChild? || step.ReadChild? || step.EndDriver?
    ensures id in After(s, step).records && LabelFollows(s, step, id, After(s, step).records[id].status)
  {
  }

  lemma LiveLabelInCancel(s: State, step: Step, id: Id)
    requires Consistent(s) && Enabled(s, step) && Live(s.records, id)
    requires step.RequestCancel? || step.SnapshotChildren? || step.CancelNext? || step.BackendAnswer?
    ensures id in After(s, step).records && LabelFollows(s, step, id, After(s, step).records[id].status)
  {
    if step.BackendAnswer? {
      AskedIsChild(s, step.token);
    }
  }

  /** A job that has ended is relabelled exactly by a timed-out await on it and by a refusal of the backend. */
  lemma EndedLabel(s: State, step: Step, id: Id)
    requires Consistent(s) && Enabled(s, step) && IsTerminal(s.records, id)
    ensures id in After(s, step).records
    ensures After(s, step).records[id] == s.records[id].(status :=
              if TimesOut(s, step, id) then step.end else if Refuses(s, step, id) then Failed else s.records[id].status)
  {
    StepEvolves(s, step);
    assert RecordEvolves(s.records[id], After(s, step).records[id]);
  }

  ghost predicate EndsAt(states: seq<State>, steps: seq<Step>, i: nat, id: Id, end: Status) {
    i < |steps| && |states| == |steps| + 1 && StepAt(states, steps, i) && Ends(states[i], steps[i], id, end)
  }

  /** Over whole runs: a root carries the label of the step that ended it, and no other. */
  lemma {:induction false} RootLabel(states: seq<State>, steps: seq<Step>, j: nat, id: Id, end: Status)
    requires IsRun(states, steps) && j <= |steps| && Terminal(end)
    requires id in states[j].records && states[j].records[id].parent == None
    ensures states[j].records[id].status == end <==> exists i: nat :: i < j && EndsAt(states, steps, i, id, end)
  {
    if j > 0 {
      var s, step := states[j - 1], steps[j - 1];
      RunIsConsistent(states, steps, j - 1);
      assert StepAt(states, steps, j - 1);
      forall i: nat | i < j && EndsAt(states, steps, i, id, end) ensures id in s.records {
        RunEvolves(states, steps, i, j - 1);
      }
      if id in s.records {
        StepEvolves(s, step);
        assert RecordEvolves(s.records[id], states[j].records[id]);
        RootLabel(states, steps, j - 1, id, end);
        LiveIsNotTerminal(s.records, id);
        if Live(s.records, id) {
          LiveLabel(s, step, id);
          assert Ends(s, step, id, end) ==> EndsAt(states, steps, j - 1, id, end);
        }
      }
    }
  }

  /** The target of an accepted cancellation is cancelled at once, and a root stays so. */
  lemma CancelledForGood(states: seq<State>, steps: seq<Step>, i: nat, j: nat, token: nat, id: Id)
    requires IsRun(states, steps) && i < j <= |steps| && steps[i] == RequestCancel(token, id) && Live(states[i].records, id)
    ensures id in states[i + 1].records && states[i + 1].records[id] == states[i].records[id].(status := Cancelled)
    ensures states[i].records[id].parent == None ==>
              id in states[j].records && states[j].records[id] == states[i].records[id].(status := Cancelled)
  {
    assert StepAt(states, steps, i);
    TerminalIsFinal(states, steps, i + 1, j, id);
  }

  /** No two cancellations have one target. */
  ghost predicate OneCancelEach(s: State) {
    forall k, l :: k in s.cancels && l in s.cancels && s.cancels[k].target == s.cancels[l].target ==> k == l
  }

  lemma {:induction false} RunHasOneCancelEach(states: seq<State>, steps: seq<Step>, i: nat)
    requires IsRun(states, steps) && i <= |steps|
    ensures OneCancelEach(states[i])
  {
    if i > 0 {
      RunHasOneCancelEach(states, steps, i - 1);
      RunIsConsistent(states, steps, i - 1);
      assert StepAt(states, steps, i - 1);
      StepKeepsOneCancelEach(states[i - 1], steps[i - 1]);
    }
  }

  lemma StepKeepsOneCancelEach(s: State, step: Step)
    requires Consistent(s) && Enabled(s, step) && OneCancelEach(s)
    ensures OneCancelEach(After(s, step))
  {
    if step.RequestCancel? {
      forall k | k in s.cancels ensures IsTerminal(s.records, s.cancels[k].target) {
        assert GoodCancel(s.records, s.cancels[k]);
      }
    }
  }

  ghost predicate IsTokenStep(step: Step, token: nat) {
    (step.SnapshotChildren? || step.CancelNext? || step.BackendAnswer?) && step.token == token
  }

  /** While it asks, the child stays cancelled unless an await on it times out. */
  lemma AskedStaysCancelled(s: State, step: Step, token: nat, child: Id)
    requires Consistent(s) && OneCancelEach(s) && Enabled(s, step) && !IsTokenStep(step, token)
    requires AsksAbout(s, token, child) && !TimesOut(s, step, child)
    requires child in s.records && s.records[child].status == Cancelled
    ensures AsksAbout(After(s, step), token, child)
    ensures child in After(s, step).records && After(s, step).records[child].status == Cancelled
  {
    EndedLabel(s, step, child);
    AskedIsChild(s, token);
    forall other | AsksAbout(s, other, child) ensures other == token {
      AskedIsChild(s, other);
    }
  }

  lemma {:induction false} AskedStaysCancelledFor(states: seq<State>, steps: seq<Step>, i: nat, m: nat, token: nat, child: Id)
    requires IsRun(states, steps) && i <= m <= |steps| && AsksAbout(states[i], token, child)
    requires child in states[i].records && states[i].records[child].status == Cancelled
    requires forall k :: i <= k < m ==> !IsTokenStep(steps[k], token) && !TimesOut(states[k], steps[k], child)
    ensures AsksAbout(states[m], token, child)
    ensures child in states[m].records && states[m].records[child].status == Cancelled
    decreases m - i
  {
    if i < m {
      AskedStaysCancelledFor(states, steps, i, m - 1, token, child);
      RunIsConsistent(states, steps, m - 1);
      RunHasOneCancelEach(states, steps, m - 1);
      assert StepAt(states, steps, m - 1);
      AskedStaysCancelled(states[m - 1], steps[m - 1], token, child);
    }
  }

  /**
   A child that the loop finds live is written cancelled. When the backend's answer comes it is written
   failed if the backend refused and stays cancelled if not, unless an await on it has timed out meanwhile.
   */
  lemma LoopLabelsChild(states: seq<State>, steps: seq<Step>, i: nat, m: nat, token: nat, child: Id, refused: bool)
    requires IsRun(states, steps) && i < m < |steps|
    requires steps[i] == CancelNext(token) && ComesTo(states[i], steps[i], child) && Live(states[i].records, child)
    requires steps[m] == BackendAnswer(token, refused)
    requires forall k :: i < k < m ==> !IsTokenStep(steps[k], token) && !TimesOut(states[k], steps[k], child)
    ensures child in states[i + 1].records && states[i + 1].records[child] == states[i].records[child].(status := Cancelled)
    ensures child in states[m + 1].records
    ensures states[m + 1].records[child].status == if refused then Failed else Cancelled
  {
    assert StepAt(states, steps, i) && StepAt(states, steps, m);
    AskedStaysCancelledFor(states, steps, i + 1, m, token, child);
    RunIsConsistent(states, steps, m);
    EndedLabel(states[m], steps[m], child);
  }

  // ----- two runs that do happen ----------------------------------------------------------------------

  /** It happens: a child completes, and the await on it times out during its last saves. */
  lemma CompletedChildMayBeRelabelled(p: Id, c: Id) returns (states: seq<State>, steps: seq<Step>)
    requires p != c
    ensures IsRun(states, steps) && |steps| == 4
    ensures IsCompleted(states[3].records, c) && IsTerminal(states[4].records, c) && !IsCompleted(states[4].records, c)
  {
    steps := [SubmitDynamic(p), AddChild(p, c), FinishRun(c, Completed), TimeOutChild(p, Cancelled)];
    var s1 := After(INITIAL, steps[0]);
    var s2 := After(s1, steps[1]);
    var s3 := After(s2, steps[2]);
    states := [INITIAL, s1, s2, s3, After(s3, steps[3])];
    assert StepAt(states, steps, 0) && StepAt(states, steps, 1) && StepAt(states, steps, 2) && StepAt(states, steps, 3);
    forall i {:trigger StepAt(states, steps, i)} | 0 <= i < |steps| ensures StepAt(states, steps, i) {
      assert i == 0 || i == 1 || i == 2 || i == 3;
    }
  }

  /** An error while awaiting fails the parent and leaves its child live with nobody to end it. */
  lemma AbandonedChildStaysLive(p: Id, c: Id)
    requires p != c
    ensures
      var start := After(After(INITIAL, SubmitDynamic(p)), AddChild(p, c));
      && Enabled(start, EndDriver(p, Failed)) && Abandons(start, EndDriver(p, Failed))
      && IsTerminal(After(start, EndDriver(p, Failed)).records, p)
      && HasLiveChild(After(start, EndDriver(p, Failed)).records, p, c)
  {
  }

  // ----- the table ------------------------------------------------------------------------------------

  class JobTable {
    var records: map<Id, Record>
    var drivers: map<Id, Phase>
    var cancels: map<nat, Cancel>

    constructor ()
      ensures Now() == INITIAL && Consistent(Now())
    {
      records, drivers, cancels := map[], map[], map[];
    }

    ghost function Now(): (s: State)
      reads this
    {
      State(records, drivers, cancels)
    }

    method Submit(id: Id, dynamic: bool)
      requires Consistent(Now()) && id !in records
      modifies this
      ensures Now() == After(old(Now()), if dynamic then SubmitDynamic(id) else SubmitStatic(id))
      ensures Consistent(Now())
      ensures records == old(records)[id := Record(Pending, None, [])] && cancels == old(cancels)
      ensures drivers == if dynamic then old(drivers)[id := Between] else old(drivers)
    {
      StepKeepsConsistent(Now(), if dynamic then SubmitDynamic(id) else SubmitStatic(id));
      records := records[id := Record(Pending, None, [])];
      if dynamic {
        drivers := drivers[id := Between];
      }
    }

    /** `_run_job` and `_run_dynamic_job` start: nothing happens to a job that is already over. */
    method Start(id: Id) returns (terminalBeforeStart: bool)
      requires Consistent(Now()) && id in records
      modifies this
      ensures Now() == After(old(Now()), StartRun(id)) && Consistent(Now())
      ensures terminalBeforeStart <==> !Live(old(records), id)
      ensures records == if terminalBeforeStart then old(records) else old(records)[id := old(records)[id].(status := Running)]
      ensures drivers == old(drivers) && cancels == old(cancels)
    {
      StepKeepsConsistent(Now(), StartRun(id));
      terminalBeforeStart := Terminal(records[id].status);
      if !terminalBeforeStart {
        records := records[id := records[id].(status := Running)];
      }
    }

    method Finish(id: Id, end: Status) returns (alreadyTerminal: bool)
      requires Consistent(Now()) && id in records && Terminal(end)
      modifies this
      ensures Now() == After(old(Now()), FinishRun(id, end)) && Consistent(Now())
      ensures alreadyTerminal <==> !Live(old(records), id)
      ensures records == if alreadyTerminal then old(records) else old(records)[id := old(records)[id].(status := end)]
      ensures drivers == old(drivers) && cancels == old(cancels)
    {
      StepKeepsConsistent(Now(), FinishRun(id, end));
      alreadyTerminal := Terminal(records[id].status);
      if !alreadyTerminal {
        records := records[id := records[id].(status := end)];
      }
    }

    /** `mark_running_jobs_failed`: collects the active records, then fails them, under one lock. */
    method MarkRunningJobsFailed()
      requires Consistent(Now())
      modifies this
      ensures Now() == After(old(Now()), Shutdown) && Consistent(Now())
      ensures records.Keys == old(records).Keys && drivers == old(drivers) && cancels == old(cancels)
      ensures forall id :: id in records ==>
                records[id] == if Live(old(records), id) then old(records)[id].(status := Failed) else old(records)[id]
      ensures forall id :: id in records ==> IsTerminal(records, id)
    {
      StepKeepsConsistent(Now(), Shutdown);
      ghost var was := records;
      var active := set id | id in records && !Terminal(records[id].status);
      while active != {}
        invariant drivers == old(drivers) && cancels == old(cancels)
        invariant records.Keys == was.Keys
        invariant forall id :: id in active ==> id in was && !Terminal(was[id].status)
        invariant forall id :: id in was ==> records[id] == if id in active then was[id] else FailActive(was)[id]
        decreases active
      {
        var id :| id in active;
        records := records[id := records[id].(status := Failed)];
        active := active - {id};
      }
      assert records == FailActive(was);
    }

    method SubmitDynamicChild(parent: Id, child: Id) returns (added: bool)
      requires Consistent(Now()) && Enabled(Now(), AddChild(parent, child))
      modifies this
      ensures Now() == After(old(Now()), AddChild(parent, child)) && Consistent(Now())
      ensures parent in old(records) && (added <==> Live(old(records), parent)) && cancels == old(cancels)
      ensures added ==>
                && records == old(records)[child := Record(Pending, Some(parent), [])]
                                          [parent := old(records)[parent].(children := old(records)[parent].children + [child])]
                && drivers == old(drivers)[parent := Awaiting(child)]
      ensures !added ==> records == old(records) && drivers == old(drivers)[parent := Gone]
    {
      StepKeepsConsistent(Now(), AddChild(parent, child));
      assert GoodDriver(records, parent, drivers[parent]) && GoodFamily(records, parent);
      if parent !in records || Terminal(records[parent].status) {
        drivers := drivers[parent := Gone];
        return false;
      }
      records := records[child := Record(Pending, Some(parent), [])];
      if child !in records[parent].children {
        records := records[parent := records[parent].(children := records[parent].children + [child])];
      }
      drivers := drivers[parent := Awaiting(child)];
      added := true;
    }

    /** After the await: the timed-out child is written whatever it is, any other child is read. */
    method AwaitChild(parent: Id, timedOut: Option<Status>) returns (goesOn: bool)
      requires Consistent(Now())
      requires Enabled(Now(), if timedOut.Some? then TimeOutChild(parent, timedOut.value) else ReadChild(parent))
      modifies this
      ensures Consistent(Now())
      ensures Now() == After(old(Now()), if timedOut.Some? then TimeOutChild(parent, timedOut.value) else ReadChild(parent))
      ensures goesOn ==> parent in records && forall c :: c in records[parent].children ==> IsCompleted(records, c)
      ensures
        var child := old(drivers)[parent].child;
        && child in old(records)
        && (goesOn <==> timedOut.None? && old(records)[child].status == Completed)
        && records == (if timedOut.Some? then old(records)[child := old(records)[child].(status := timedOut.value)]
                       else old(records))
      ensures drivers == old(drivers)[parent := if goesOn then Between else Ending] && cancels == old(cancels)
    {
      var step := if timedOut.Some? then TimeOutChild(parent, timedOut.value) else ReadChild(parent);
      StepKeepsConsistent(Now(), step);
      assert GoodDriver(records, parent, drivers[parent]) && GoodFamily(records, parent);
      var child := drivers[parent].child;
      if timedOut.Some? {
        records := records[child := records[child].(status := timedOut.value)];
        goesOn := false;
      } else {
        goesOn := records[child].status == Completed;
      }
      drivers := drivers[parent := if goesOn then Between else Ending];
      assert GoodDriver(records, parent, drivers[parent]);
    }

    method Conclude(parent: Id, end: Status)
      requires Consistent(Now()) && Enabled(Now(), EndDriver(parent, end))
      modifies this
      ensures Now() == After(old(Now()), EndDriver(parent, end)) && Consistent(Now())
      ensures parent in old(records)
      ensures records == if Live(old(records), parent) then old(records)[parent := old(records)[parent].(status := end)]
                         else old(records)
      ensures drivers == old(drivers)[parent := Gone] && cancels == old(cancels)
    {
      StepKeepsConsistent(Now(), EndDriver(parent, end));
      assert GoodDriver(records, parent, drivers[parent]);
      if !Terminal(records[parent].status) {
        records := records[parent := records[parent].(status := end)];
      }
      drivers := drivers[parent := Gone];
    }

    /** `cancel_job`, first section: false is the 409 answer. */
    method CancelJob(token: nat, id: Id) returns (accepted: bool)
      requires Consistent(Now()) && token !in cancels && id in records
      modifies this
      ensures Now() == After(old(Now()), RequestCancel(token, id)) && Consistent(Now())
      ensures accepted <==> Live(old(records), id)
      ensures accepted ==>
                && records == old(records)[id := old(records)[id].(status := Cancelled)]
                && cancels == old(cancels)[token := Marked(id)]
      ensures !accepted ==> records == old(records) && cancels == old(cancels)
      ensures drivers == old(drivers)
    {
      StepKeepsConsistent(Now(), RequestCancel(token, id));
      accepted := !Terminal(records[id].status);
      if accepted {
        records := records[id := records[id].(status := Cancelled)];
        cancels := cancels[token := Marked(id)];
      }
    }

    method ListChildren(token: nat)
      requires Consistent(Now()) && Enabled(Now(), SnapshotChildren(token))
      modifies this
      ensures Now() == After(old(Now()), SnapshotChildren(token)) && Consistent(Now())
      ensures
        var id := old(cancels)[token].target;
        id in records && cancels == old(cancels)[token := Looping(id, records[id].children, 0)]
      ensures records == old(records) && drivers == old(drivers)
    {
      StepKeepsConsistent(Now(), SnapshotChildren(token));
      assert GoodCancel(records, cancels[token]);
      var id := cancels[token].target;
      cancels := cancels[token := Looping(id, records[id].children, 0)];
    }

    /** One turn of the loop over children; done when there is none left. */
    method CancelNextChild(token: nat) returns (done: bool)
      requires Consistent(Now()) && Enabled(Now(), CancelNext(token))
      modifies this
      ensures Now() == After(old(Now()), CancelNext(token)) && Consistent(Now())
      ensures done ==> token in cancels && IsTerminal(records, cancels[token].target)
      ensures done ==> forall c :: c in records[cancels[token].target].children ==> IsTerminal(records, c)
      ensures
        var Looping(id, snapshot, i) := old(cancels)[token];
        && (done <==> i >= |snapshot|)
        && (done ==> records == old(records) && cancels == old(cancels)[token := Returned(id)])
        && (!done && Live(old(records), snapshot[i]) ==>
              && records == old(records)[snapshot[i] := old(records)[snapshot[i]].(status := Cancelled)]
              && cancels == old(cancels)[token := Asking(id, snapshot, i)])
        && (!done && !Live(old(records), snapshot[i]) ==>
              records == old(records) && cancels == old(cancels)[token := Looping(id, snapshot, i + 1)])
      ensures drivers == old(drivers)
    {
      StepKeepsConsistent(Now(), CancelNext(token));
      var Looping(id, snapshot, i) := cancels[token];
      done := i >= |snapshot|;
      if done {
        cancels := cancels[token := Returned(id)];
      } else if snapshot[i] !in records || Terminal(records[snapshot[i]].status) {
        cancels := cancels[token := Looping(id, snapshot, i + 1)];
      } else {
        records := records[snapshot[i] := records[snapshot[i]].(status := Cancelled)];
        cancels := cancels[token := Asking(id, snapshot, i)];
      }
      assert GoodCancel(records, cancels[token]);
    }

    /** The backend refused to cancel the child: it is written failed, whatever it is by now. */
    method BackendAnswered(token: nat, failed: bool)
      requires Consistent(Now()) && Enabled(Now(), BackendAnswer(token, failed))
      modifies this
      ensures Now() == After(old(Now()), BackendAnswer(token, failed)) && Consistent(Now())
      ensures
        var Asking(id, snapshot, i) := old(cancels)[token];
        && i < |snapshot| && snapshot[i] in old(records)
        && records == (if failed then old(records)[snapshot[i] := old(records)[snapshot[i]].(status := Failed)] else old(records))
        && cancels == old(cancels)[token := Looping(id, snapshot, i + 1)]
      ensures drivers == old(drivers)
    {
      StepKeepsConsistent(Now(), BackendAnswer(token, failed));
      AskedIsChild(Now(), token);
      var Asking(id, snapshot, i) := cancels[token];
      if failed {
        records := records[snapshot[i] := records[snapshot[i]].(status := Failed)];
      }
      cancels := cancels[token := Looping(id, snapshot, i + 1)];
    }
  }
}
