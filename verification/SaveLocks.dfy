/**
 utils/job_storage.py: `JobStorage.save` run by many threads at once.  The per-job write lock is
 created on first use by double-checked locking; the record is read once that lock is held.
 A run is any interleaving of the steps below.
 */
module SaveLocks {
  import J = JobLifecycle

  type Job = string
  type Thread = nat
  type Lock = nat

  /** A record at one moment: `version` counts the changes made to it. */
  datatype Snapshot = Snapshot(version: nat, status: J.Status)

  /** What is being saved: the live record, or a copy made before `save` was called. */
  datatype Source = Live | Copy(taken: Snapshot)

  datatype Pc =
    | Idle
    | Looking(job: Job, source: Source)
    | Missed(job: Job, source: Source)
    | Guarded(job: Job, source: Source)
    | MissedAgain(job: Job, source: Source)
    | Releasing(job: Job, source: Source, lock: Lock)
    | Found(job: Job, source: Source, lock: Lock)
    | Entered(job: Job, source: Source, lock: Lock)
    | Read(job: Job, source: Source, lock: Lock, data: Snapshot)
    | Written(job: Job, lock: Lock)

  datatype State = State(
    locks: map<Job, Lock>,
    made: nat,
    guard: Hold<Thread>,
    held: map<Lock, Thread>,
    pcs: map<Thread, Pc>,
    live: map<Job, Snapshot>,
    stored: map<Job, Snapshot>)

  datatype Hold<T> = Free | By(owner: T)

  const INITIAL_STATE := State(map[], 0, Free, map[], map[], map[], map[])

  function PcOf(s: State, t: Thread): (pc: Pc) {
    if t in s.pcs then s.pcs[t] else Idle
  }

  datatype Step =
    | Create(job: Job)
    | Change(job: Job, status: J.Status)
    | Begin(thread: Thread, job: Job, copied: bool)
    | Run(thread: Thread)

  ghost predicate Enabled(s: State, step: Step) {
    match step
    case Create(job) => job !in s.live
    case Change(job, status) => job in s.live && (J.Terminal(s.live[job].status) ==> J.Terminal(status))
    case Begin(t, job, copied) =>
      PcOf(s, t) == Idle && job in s.live && (copied ==> J.Terminal(s.live[job].status))
    case Run(t) =>
      match PcOf(s, t)
      case Idle => false
      case Missed(_, _) => s.guard == Free
      case Found(_, _, lock) => lock !in s.held
      case Entered(job, _, _) => job in s.live
      case _ => true
  }

  /** One thread's next move inside `save`. */
  function RunStep(s: State, t: Thread): (r: State)
    requires Enabled(s, Run(t))
  {
    match PcOf(s, t)
    case Idle => s
    case Looking(job, source) =>
      s.(pcs := s.pcs[t := if job in s.locks then Found(job, source, s.locks[job]) else Missed(job, source)])
    case Missed(job, source) => s.(guard := By(t), pcs := s.pcs[t := Guarded(job, source)])
    case Guarded(job, source) =>
      s.(pcs := s.pcs[t := if job in s.locks then Releasing(job, source, s.locks[job]) else MissedAgain(job, source)])
    case MissedAgain(job, source) =>
      s.(locks := s.locks[job := s.made], made := s.made + 1, pcs := s.pcs[t := Releasing(job, source, s.made)])
    case Releasing(job, source, lock) => s.(guard := Free, pcs := s.pcs[t := Found(job, source, lock)])
    case Found(job, source, lock) => s.(held := s.held[lock := t], pcs := s.pcs[t := Entered(job, source, lock)])
    case Entered(job, source, lock) =>
      s.(pcs := s.pcs[t := Read(job, source, lock, if source.Live? then s.live[job] else source.taken)])
    case Read(job, _, lock, data) => s.(stored := s.stored[job := data], pcs := s.pcs[t := Written(job, lock)])
    case Written(_, lock) => s.(held := s.held - {lock}, pcs := s.pcs[t := Idle])
  }

  function After(s: State, step: Step): (r: State)
    requires Enabled(s, step)
  {
    match step
    case Create(job) => s.(live := s.live[job := Snapshot(0, J.Pending)])
    case Change(job, status) => s.(live := s.live[job := Snapshot(s.live[job].version + 1, status)])
    case Begin(t, job, copied) =>
      s.(pcs := s.pcs[t := Looking(job, if copied then Copy(s.live[job]) else Live)])
    case Run(t) => RunStep(s, t)
  }

  // ----- what holds at every moment ------------------------------------------------------------

  predicate InGuard(pc: Pc) {
    pc.Guarded? || pc.MissedAgain? || pc.Releasing?
  }

  /** Holding the job's write lock, that is, inside `_save_locked`. */
  predicate Inside(pc: Pc) {
    pc.Entered? || pc.Read? || pc.Written?
  }

  predicate HasLock(pc: Pc) {
    pc.Releasing? || pc.Found? || Inside(pc)
  }

  /** No later than the live record, and terminal only if that is. */
  predicate NotAhead(a: Snapshot, b: Snapshot) {
    a.version <= b.version && (J.Terminal(a.status) ==> J.Terminal(b.status))
  }

  ghost predicate GoodSource(s: State, job: Job, source: Source) {
    && job in s.live
    && (source.Copy? ==> J.Terminal(source.taken.status) && NotAhead(source.taken, s.live[job]))
  }

  ghost predicate GoodThread(s: State, t: Thread) {
    var pc := PcOf(s, t);
    && (InGuard(pc) <==> s.guard == By(t))
    && (pc.MissedAgain? ==> pc.job !in s.locks)
    && (HasLock(pc) ==> pc.job in s.locks && s.locks[pc.job] == pc.lock)
    && (Inside(pc) ==> pc.lock in s.held && s.held[pc.lock] == t)
    && (!pc.Idle? && !pc.Written? ==> GoodSource(s, pc.job, pc.source))
    && (pc.Read? ==> GoodRead(s, pc.job, pc.source, pc.data))
  }

  /** What was read inside the lock is still the newest that has been stored, unless it is a copy. */
  ghost predicate GoodRead(s: State, job: Job, source: Source, data: Snapshot) {
    && job in s.live && NotAhead(data, s.live[job])
    && (source.Copy? ==> data == source.taken)
    && (source.Live? && job in s.stored ==> NotAhead(s.stored[job], data))
  }

  ghost predicate GoodLocks(s: State) {
    && (forall job :: job in s.locks ==> s.locks[job] < s.made)
    && (forall a, b :: a in s.locks && b in s.locks && s.locks[a] == s.locks[b] ==> a == b)
  }

  ghost predicate GoodHeld(s: State) {
    forall lock :: lock in s.held ==> Inside(PcOf(s, s.held[lock])) && PcOf(s, s.held[lock]).lock == lock
  }

  ghost predicate GoodStored(s: State) {
    forall job :: job in s.stored ==> job in s.live && NotAhead(s.stored[job], s.live[job])
  }

  ghost predicate Consistent(s: State) {
    && GoodLocks(s) && GoodHeld(s) && GoodStored(s)
    && forall t {:trigger GoodThread(s, t)} :: GoodThread(s, t)
  }

  // ----- mutual exclusion --------------------------------------------------------------------------

  /** All threads past the lookup for one job have one and the same lock, so one at most is inside. */
  lemma OneLockPerJob(s: State, t: Thread, u: Thread)
    requires Consistent(s)
    requires HasLock(PcOf(s, t)) && HasLock(PcOf(s, u)) && PcOf(s, t).job == PcOf(s, u).job
    ensures PcOf(s, t).lock == PcOf(s, u).lock
    ensures Inside(PcOf(s, t)) && Inside(PcOf(s, u)) ==> t == u
  {
    assert GoodThread(s, t) && GoodThread(s, u);
  }

  // ----- the invariant is kept -----------------------------------------------------------------------

  /** Outside the job's lock nothing is stored for it, and live records only move on. */
  ghost predicate Undisturbed(s: State, r: State, t: Thread) {
    && PcOf(r, t) == PcOf(s, t)
    && (s.guard == By(t) <==> r.guard == By(t))
    && (forall job :: job in s.locks ==> job in r.locks && r.locks[job] == s.locks[job])
    && (PcOf(s, t).MissedAgain? && PcOf(s, t).job !in s.locks ==> PcOf(s, t).job !in r.locks)
    && (forall lock :: lock in s.held && s.held[lock] == t ==> lock in r.held && r.held[lock] == t)
    && (forall job :: job in s.live ==> job in r.live && NotAhead(s.live[job], r.live[job]))
    && (PcOf(s, t).Read? ==>
          (PcOf(s, t).job in r.stored ==> PcOf(s, t).job in s.stored && r.stored[PcOf(s, t).job] == s.stored[PcOf(s, t).job]))
  }

  lemma UndisturbedStays(s: State, r: State, t: Thread)
    requires GoodThread(s, t) && Undisturbed(s, r, t)
    ensures GoodThread(r, t)
  {
  }

  lemma LookupLeavesOthers(s: State, u: Thread, t: Thread)
    requires Consistent(s) && Enabled(s, Run(u)) && u != t
    requires PcOf(s, u).Looking? || PcOf(s, u).Missed? || PcOf(s, u).Guarded? || PcOf(s, u).MissedAgain?
    ensures Undisturbed(s, RunStep(s, u), t)
  {
    assert GoodThread(s, t) && GoodThread(s, u);
    assert PcOf(s, u).MissedAgain? ==> !PcOf(s, t).MissedAgain?;
  }

  lemma LockingLeavesOthers(s: State, u: Thread, t: Thread)
    requires Consistent(s) && Enabled(s, Run(u)) && u != t
    requires PcOf(s, u).Releasing? || PcOf(s, u).Found? || PcOf(s, u).Entered?
    ensures Undisturbed(s, RunStep(s, u), t)
  {
    assert GoodThread(s, t) && GoodThread(s, u);
  }

  lemma WritingLeavesOthers(s: State, u: Thread, t: Thread)
    requires Consistent(s) && Enabled(s, Run(u)) && u != t
    requires PcOf(s, u).Read? || PcOf(s, u).Written?
    ensures Undisturbed(s, RunStep(s, u), t)
  {
    assert GoodThread(s, t) && GoodThread(s, u);
    assert PcOf(s, u).Read? && PcOf(s, t).Read? ==> PcOf(s, u).job != PcOf(s, t).job;
  }

  lemma RunLeavesOthers(s: State, u: Thread, t: Thread)
    requires Consistent(s) && Enabled(s, Run(u)) && u != t
    ensures Undisturbed(s, RunStep(s, u), t)
  {
    match PcOf(s, u)
    case Releasing(_, _, _) => LockingLeavesOthers(s, u, t);
    case Found(_, _, _) => LockingLeavesOthers(s, u, t);
    case Entered(_, _, _) => LockingLeavesOthers(s, u, t);
    case Read(_, _, _, _) => WritingLeavesOthers(s, u, t);
    case Written(_, _) => WritingLeavesOthers(s, u, t);
    case _ => LookupLeavesOthers(s, u, t);
  }

  lemma OthersUndisturbed(s: State, step: Step, t: Thread)
    requires Consistent(s) && Enabled(s, step)
    requires step.Begin? || step.Run? ==> step.thread != t
    ensures Undisturbed(s, After(s, step), t)
  {
    if step.Run? {
      RunLeavesOthers(s, step.thread, t);
    }
  }

  lemma RunnerStaysGood(s: State, t: Thread)
    requires Consistent(s) && Enabled(s, Run(t))
    ensures GoodThread(RunStep(s, t), t)
  {
    assert GoodThread(s, t);
  }

  lemma LocksKept(s: State, step: Step)
    requires GoodLocks(s) && Enabled(s, step)
    ensures GoodLocks(After(s, step))
  {
  }

  lemma HeldKept(s: State, step: Step)
    requires Consistent(s) && Enabled(s, step)
    ensures GoodHeld(After(s, step))
  {
    if step.Run? || step.Begin? {
      assert GoodThread(s, step.thread);
    }
  }

  lemma StoredKept(s: State, step: Step)
    requires Consistent(s) && Enabled(s, step)
    ensures GoodStored(After(s, step))
  {
    if step.Run? {
      assert GoodThread(s, step.thread);
    }
  }

  lemma StepKeepsConsistent(s: State, step: Step)
    requires Consistent(s) && Enabled(s, step)
    ensures Consistent(After(s, step))
  {
    var r := After(s, step);
    LocksKept(s, step);
    HeldKept(s, step);
    StoredKept(s, step);
    forall t ensures GoodThread(r, t) {
      assert GoodThread(s, t);
      if (step.Begin? || step.Run?) && step.thread == t {
        if step.Run? {
          RunnerStaysGood(s, t);
        }
      } else {
        OthersUndisturbed(s, step, t);
        UndisturbedStays(s, r, t);
      }
    }
  }

  // ----- whole runs ----------------------------------------------------------------------------------

  ghost predicate StepAt(states: seq<State>, steps: seq<Step>, i: nat)
    requires i < |steps| && |states| == |steps| + 1
  {
    Enabled(states[i], steps[i]) && states[i + 1] == After(states[i], steps[i])
  }

  ghost predicate IsRun(states: seq<State>, steps: seq<Step>) {
    && |states| == |steps| + 1
    && states[0] == INITIAL_STATE
    && forall i {:trigger StepAt(states, steps, i)} :: 0 <= i < |steps| ==> StepAt(states, steps, i)
  }

  lemma {:induction false} RunIsConsistent(states: seq<State>, steps: seq<Step>, i: nat)
    requires IsRun(states, steps) && i <= |steps|
    ensures Consistent(states[i])
  {
    if i > 0 {
      RunIsConsistent(states, steps, i - 1);
      assert StepAt(states, steps, i - 1);
      StepKeepsConsistent(states[i - 1], steps[i - 1]);
    }
  }

  /** A job's lock, once made, is the one every later save uses. */
  lemma {:induction false} LockNeverReplaced(states: seq<State>, steps: seq<Step>, i: nat, j: nat, job: Job)
    requires IsRun(states, steps) && i <= j <= |steps| && job in states[i].locks
    ensures job in states[j].locks && states[j].locks[job] == states[i].locks[job]
    decreases j - i
  {
    if i < j {
      LockNeverReplaced(states, steps, i, j - 1, job);
      RunIsConsistent(states, steps, j - 1);
      assert StepAt(states, steps, j - 1);
      if steps[j - 1].Run? {
        assert GoodThread(states[j - 1], steps[j - 1].thread);
      }
    }
  }

  /** In every run, at every moment, at most one thread is writing a given job. */
  lemma OneWriterPerJob(states: seq<State>, steps: seq<Step>, i: nat, t: Thread, u: Thread)
    requires IsRun(states, steps) && i <= |steps|
    requires Inside(PcOf(states[i], t)) && Inside(PcOf(states[i], u))
    requires PcOf(states[i], t).job == PcOf(states[i], u).job
    ensures t == u
  {
    RunIsConsistent(states, steps, i);
    OneLockPerJob(states[i], t, u);
  }

  // ----- how stored versions move ---------------------------------------------------------------------

  /** The step stores the job's record. */
  ghost predicate IsWrite(s: State, step: Step, job: Job) {
    step.Run? && PcOf(s, step.thread).Read? && PcOf(s, step.thread).job == job
  }

  /** A save of the live record never stores an older version than there is, and no save revives a finished job. */
  lemma SavesGoForward(s: State, step: Step, job: Job)
    requires Consistent(s) && Enabled(s, step) && job in s.stored
    ensures job in After(s, step).stored
    ensures After(s, step).stored[job] != s.stored[job] ==> IsWrite(s, step, job)
    ensures After(s, step).stored[job].version < s.stored[job].version ==> PcOf(s, step.thread).source.Copy?
    ensures J.Terminal(s.stored[job].status) ==> J.Terminal(After(s, step).stored[job].status)
  {
    if step.Run? {
      assert GoodThread(s, step.thread);
    }
  }

  /** The step takes the data that thread `t` will store: by copying the record, or by reading it under the lock. */
  ghost predicate Takes(s: State, step: Step, t: Thread, job: Job) {
    || step == Begin(t, job, true)
    || (step == Run(t) && PcOf(s, t).Entered? && PcOf(s, t).job == job && PcOf(s, t).source.Live?)
  }

  /** The save that step `k` belongs to took its data at step `o`. */
  ghost predicate IsMoment(states: seq<State>, steps: seq<Step>, o: nat, k: nat, job: Job) {
    && o < k < |steps| && |states| == |steps| + 1 && steps[k].Run?
    && Takes(states[o], steps[o], steps[k].thread, job)
    && forall x :: o < x <= k ==> !PcOf(states[x], steps[k].thread).Idle?
  }

  /** Step `k` is the last before `i` that stores the job. */
  ghost predicate IsLastWrite(states: seq<State>, steps: seq<Step>, k: nat, i: nat, job: Job) {
    && k < i <= |steps| && |states| == |steps| + 1
    && IsWrite(states[k], steps[k], job)
    && forall x {:trigger IsWrite(states[x], steps[x], job)} :: k < x < i ==> !IsWrite(states[x], steps[x], job)
  }

  ghost predicate ChangedBetween(steps: seq<Step>, o: nat, p: nat, job: Job) {
    exists m :: o <= m < p && m < |steps| && steps[m].Change? && steps[m].job == job
  }

  /**
   Step `i` stores what was taken at `o`, over what step `k` stored and had taken at `p`, and the
   record was changed between `o` and `p`.
   */
  ghost predicate Overtaken(states: seq<State>, steps: seq<Step>, i: nat, job: Job, o: nat, k: nat, p: nat) {
    && i < |steps| && |states| == |steps| + 1 && IsWrite(states[i], steps[i], job)
    && IsMoment(states, steps, o, i, job)
    && IsLastWrite(states, steps, k, i, job) && IsMoment(states, steps, p, k, job)
    && ChangedBetween(steps, o, p, job)
  }

  ghost predicate IsOvertakenWrite(states: seq<State>, steps: seq<Step>, i: nat, job: Job) {
    exists o, k, p :: Overtaken(states, steps, i, job, o, k, p)
  }

  /** Versions count changes: a later version means a change in between. */
  lemma {:induction false} VersionsCountChanges(states: seq<State>, steps: seq<Step>, a: nat, b: nat, job: Job)
    requires IsRun(states, steps) && a <= b <= |steps| && job in states[a].live
    ensures job in states[b].live && states[a].live[job].version <= states[b].live[job].version
    ensures states[a].live[job].version < states[b].live[job].version <==> ChangedBetween(steps, a, b, job)
    decreases b - a
  {
    if a < b {
      VersionsCountChanges(states, steps, a, b - 1, job);
      assert StepAt(states, steps, b - 1);
      ChangedOnce(steps, a, b, job);
    }
  }

  lemma ChangedOnce(steps: seq<Step>, a: nat, b: nat, job: Job)
    requires a < b <= |steps|
    ensures ChangedBetween(steps, a, b, job) <==>
              ChangedBetween(steps, a, b - 1, job) || (steps[b - 1].Change? && steps[b - 1].job == job)
  {
  }

  /** The thread holds data taken when the record was `snap`, or has stored it. */
  ghost predicate Holds(pc: Pc, job: Job, snap: Snapshot) {
    && !pc.Idle? && pc.job == job
    && (!pc.Written? ==>
          || (pc.source == Copy(snap) && (pc.Read? ==> pc.data == snap))
          || (pc.Read? && pc.data == snap))
  }

  /** What a save stores is the live record of the moment it was taken. */
  lemma {:induction false} MomentData(states: seq<State>, steps: seq<Step>, o: nat, k: nat, job: Job, x: nat)
    requires IsRun(states, steps) && IsMoment(states, steps, o, k, job) && o < x <= k
    ensures job in states[o].live && Holds(PcOf(states[x], steps[k].thread), job, states[o].live[job])
    decreases x
  {
    var t := steps[k].thread;
    assert !PcOf(states[x], t).Idle?;
    assert StepAt(states, steps, x - 1);
    if o < x - 1 {
      MomentData(states, steps, o, k, job, x - 1);
      assert !PcOf(states[x - 1], t).Idle?;
    }
  }

  /** Every save in progress that holds data took it at some moment. */
  lemma {:induction false} FindMoment(states: seq<State>, steps: seq<Step>, k: nat, t: Thread, x: nat) returns (o: nat)
    requires IsRun(states, steps) && x <= k < |steps| && steps[k] == Run(t)
    requires forall y :: x <= y <= k ==> !PcOf(states[y], t).Idle?
    requires PcOf(states[x], t).Read? || (!PcOf(states[x], t).Written? && PcOf(states[x], t).source.Copy?)
    ensures IsMoment(states, steps, o, k, PcOf(states[x], t).job)
    decreases x
  {
    assert !PcOf(states[x], t).Idle?;
    assert x > 0;
    assert StepAt(states, steps, x - 1);
    var job := PcOf(states[x], t).job;
    if Takes(states[x - 1], steps[x - 1], t, job) {
      o := x - 1;
    } else {
      assert !PcOf(states[x - 1], t).Idle?;
      o := FindMoment(states, steps, k, t, x - 1);
    }
  }

  /** What is stored is what the last write stored. */
  lemma {:induction false} FindLastWrite(states: seq<State>, steps: seq<Step>, i: nat, job: Job) returns (k: nat)
    requires IsRun(states, steps) && i <= |steps| && job in states[i].stored
    ensures IsLastWrite(states, steps, k, i, job)
  {
    assert i > 0;
    assert StepAt(states, steps, i - 1);
    if IsWrite(states[i - 1], steps[i - 1], job) {
      k := i - 1;
    } else {
      assert job in states[i - 1].stored;
      k := FindLastWrite(states, steps, i - 1, job);
      forall x {:trigger IsWrite(states[x], steps[x], job)} | k < x < i ensures !IsWrite(states[x], steps[x], job) {
        assert x < i - 1 || x == i - 1;
      }
    }
  }

  lemma {:induction false} StoredSince(states: seq<State>, steps: seq<Step>, k: nat, i: nat, job: Job)
    requires IsRun(states, steps) && IsLastWrite(states, steps, k, i, job)
    ensures job in states[i].stored && states[i].stored[job] == PcOf(states[k], steps[k].thread).data
    decreases i
  {
    assert StepAt(states, steps, i - 1);
    if k < i - 1 {
      assert !IsWrite(states[i - 1], steps[i - 1], job);
      StoredSince(states, steps, k, i - 1, job);
    }
  }

  /** The data of two writes, compared by what happened between the moments they were taken. */
  lemma MomentsDecide(states: seq<State>, steps: seq<Step>, i: nat, job: Job, o: nat, k: nat, p: nat)
    requires IsRun(states, steps) && i < |steps| && IsWrite(states[i], steps[i], job)
    requires IsMoment(states, steps, o, i, job) && IsLastWrite(states, steps, k, i, job) && IsMoment(states, steps, p, k, job)
    ensures job in states[i].stored && job in states[i + 1].stored
    ensures states[i + 1].stored[job].version < states[i].stored[job].version <==> ChangedBetween(steps, o, p, job)
  {
    assert StepAt(states, steps, i);
    MomentData(states, steps, o, i, job, i);
    MomentData(states, steps, p, k, job, k);
    StoredSince(states, steps, k, i, job);
    if o <= p {
      VersionsCountChanges(states, steps, o, p, job);
    } else {
      VersionsCountChanges(states, steps, p, o, job);
    }
  }

  /**
   In every run, the stored version of a job goes back at a step if and only if that step stores
   data taken before the record was changed, while the data stored last was taken after the change.
   */
  lemma VersionGoesBackExactly(states: seq<State>, steps: seq<Step>, i: nat, job: Job)
    requires IsRun(states, steps) && i < |steps| && job in states[i].stored
    ensures job in states[i + 1].stored
    ensures states[i + 1].stored[job].version < states[i].stored[job].version <==> IsOvertakenWrite(states, steps, i, job)
    ensures IsOvertakenWrite(states, steps, i, job) ==> steps[i].Run? && PcOf(states[i], steps[i].thread).source.Copy?
  {
    RunIsConsistent(states, steps, i);
    assert StepAt(states, steps, i);
    SavesGoForward(states[i], steps[i], job);
    if IsWrite(states[i], steps[i], job) {
      var o := FindMoment(states, steps, i, steps[i].thread, i);
      var k := FindLastWrite(states, steps, i, job);
      var p := FindMoment(states, steps, k, steps[k].thread, k);
      MomentsDecide(states, steps, i, job, o, k, p);
      if ChangedBetween(steps, o, p, job) {
        assert Overtaken(states, steps, i, job, o, k, p);
      }
      forall o', k', p' | Overtaken(states, steps, i, job, o', k', p')
        ensures states[i + 1].stored[job].version < states[i].stored[job].version
      {
        MomentsDecide(states, steps, i, job, o', k', p');
      }
    }
  }

  /** A stored terminal status is terminal for good, and stored versions go forward between overtaken writes. */
  lemma {:induction false} StoredTerminalStays(states: seq<State>, steps: seq<Step>, i: nat, j: nat, job: Job)
    requires IsRun(states, steps) && i <= j <= |steps| && job in states[i].stored
    ensures job in states[j].stored
    ensures J.Terminal(states[i].stored[job].status) ==> J.Terminal(states[j].stored[job].status)
    ensures (forall k {:trigger IsOvertakenWrite(states, steps, k, job)} ::
               i <= k < j ==> !IsOvertakenWrite(states, steps, k, job)) ==>
               states[i].stored[job].version <= states[j].stored[job].version
    decreases j - i
  {
    if i < j {
      StoredTerminalStays(states, steps, i, j - 1, job);
      RunIsConsistent(states, steps, j - 1);
      assert StepAt(states, steps, j - 1);
      SavesGoForward(states[j - 1], steps[j - 1], job);
      VersionGoesBackExactly(states, steps, j - 1, job);
    }
  }

  /** Every step a saver waits for is another saver's: the lock and the guard are never held by a thread that is gone. */
  lemma HolderCanMove(s: State, t: Thread)
    requires Consistent(s) && !PcOf(s, t).Idle? && !Enabled(s, Run(t))
    ensures exists u :: u != t && !PcOf(s, u).Idle? && (Inside(PcOf(s, u)) || InGuard(PcOf(s, u))) && Enabled(s, Run(u))
  {
    assert GoodThread(s, t);
    var pc := PcOf(s, t);
    if pc.Missed? {
      var u := s.guard.owner;
      assert GoodThread(s, u);
      assert Enabled(s, Run(u));
    } else {
      assert pc.Found?;
      var u := s.held[pc.lock];
      assert GoodThread(s, u);
      assert Enabled(s, Run(u));
    }
  }

  // ----- a run in which it happens --------------------------------------------------------------------

  /** The run so far, and where it stands. */
  ghost predicate RunTo(states: seq<State>, steps: seq<Step>, s: State) {
    IsRun(states, steps) && states[|steps|] == s
  }

  lemma Go(states: seq<State>, steps: seq<Step>, s: State, step: Step) returns (states': seq<State>, steps': seq<Step>)
    requires RunTo(states, steps, s) && Enabled(s, step)
    ensures RunTo(states', steps', After(s, step))
    ensures |steps'| == |steps| + 1 && steps'[|steps|] == step && states'[|steps|] == s
  {
    states', steps' := states + [After(s, step)], steps + [step];
    forall i {:trigger StepAt(states', steps', i)} | 0 <= i < |steps'| ensures StepAt(states', steps', i) {
      if i < |steps| {
        assert StepAt(states, steps, i);
      }
    }
  }

  /** A thread that starts to save goes through the lookup undisturbed; the job's lock is made if there is none. */
  lemma LookUp(states: seq<State>, steps: seq<Step>, s: State, t: Thread)
    returns (states': seq<State>, steps': seq<Step>, s': State)
    requires RunTo(states, steps, s) && PcOf(s, t).Looking? && s.guard == Free
    ensures
      var pc := PcOf(s, t);
      RunTo(states', steps', s') &&
      if pc.job in s.locks then s' == s.(pcs := s.pcs[t := Found(pc.job, pc.source, s.locks[pc.job])])
      else s' == s.(locks := s.locks[pc.job := s.made], made := s.made + 1, pcs := s.pcs[t := Found(pc.job, pc.source, s.made)])
  {
    var pc := PcOf(s, t);
    states', steps' := Go(states, steps, s, Run(t));
    s' := After(s, Run(t));
    if pc.job !in s.locks {
      var s2 := After(s', Run(t));
      var s3 := After(s2, Run(t));
      var s4 := After(s3, Run(t));
      states', steps' := Go(states', steps', s', Run(t));
      states', steps' := Go(states', steps', s2, Run(t));
      states', steps' := Go(states', steps', s3, Run(t));
      states', steps' := Go(states', steps', s4, Run(t));
      s' := After(s4, Run(t));
    }
  }

  /** With the lock free, it then reads and is about to store. */
  lemma ReadUnderLock(states: seq<State>, steps: seq<Step>, s: State, t: Thread)
    returns (states': seq<State>, steps': seq<Step>, s': State)
    requires RunTo(states, steps, s) && PcOf(s, t).Found? && PcOf(s, t).lock !in s.held && PcOf(s, t).job in s.live
    ensures
      var Found(job, source, lock) := PcOf(s, t);
      var data := if source.Live? then s.live[job] else source.taken;
      && RunTo(states', steps', s')
      && s' == s.(held := s.held[lock := t], pcs := s.pcs[t := Read(job, source, lock, data)])
  {
    states', steps' := Go(states, steps, s, Run(t));
    var s1 := After(s, Run(t));
    states', steps' := Go(states', steps', s1, Run(t));
    s' := After(s1, Run(t));
  }

  /** It stores and leaves. */
  lemma StoreAndLeave(states: seq<State>, steps: seq<Step>, s: State, t: Thread)
    returns (states': seq<State>, steps': seq<Step>, s': State)
    requires RunTo(states, steps, s) && PcOf(s, t).Read?
    ensures
      var Read(job, _, lock, data) := PcOf(s, t);
      && RunTo(states', steps', s')
      && s' == s.(held := s.held - {lock}, stored := s.stored[job := data], pcs := s.pcs[t := Idle])
  {
    states', steps' := Go(states, steps, s, Run(t));
    var s1 := After(s, Run(t));
    states', steps' := Go(states', steps', s1, Run(t));
    s' := After(s1, Run(t));
  }

  /**
   A finished record is copied for saving; its progress is then updated and saved by a reader; the
   copy is stored last.  The stored version goes back, the status stays terminal.
   */
  lemma StaleCopyIsStored(job: Job) returns (states: seq<State>, steps: seq<Step>)
    ensures IsRun(states, steps) && |steps| > 0
    ensures
      var n := |steps| - 1;
      && job in states[n].stored && job in states[n + 1].stored
      && states[n + 1].stored[job].version < states[n].stored[job].version
      && J.Terminal(states[n].stored[job].status) && J.Terminal(states[n + 1].stored[job].status)
      && IsOvertakenWrite(states, steps, n, job)
  {
    var s := INITIAL_STATE;
    states, steps := [s], [];
    states, steps := Go(states, steps, s, Create(job));
    s := After(s, Create(job));
    states, steps := Go(states, steps, s, Change(job, J.Completed));
    s := After(s, Change(job, J.Completed));
    states, steps := Go(states, steps, s, Begin(1, job, true));
    s := After(s, Begin(1, job, true));
    states, steps := Go(states, steps, s, Change(job, J.Completed));
    s := After(s, Change(job, J.Completed));
    states, steps := Go(states, steps, s, Begin(2, job, false));
    s := After(s, Begin(2, job, false));
    assert s.live[job] == Snapshot(2, J.Completed) && PcOf(s, 1) == Looking(job, Copy(Snapshot(1, J.Completed)));
    states, steps, s := NewerIsStored(states, steps, s, job);
    states, steps, s := LookUp(states, steps, s, 1);
    states, steps, s := ReadUnderLock(states, steps, s, 1);
    var last := s;
    states, steps := Go(states, steps, last, Run(1));
    VersionGoesBackExactly(states, steps, |steps| - 1, job);
  }

  lemma NewerIsStored(states: seq<State>, steps: seq<Step>, s: State, job: Job)
    returns (states': seq<State>, steps': seq<Step>, s': State)
    requires RunTo(states, steps, s) && s.guard == Free && s.held == map[] && s.locks == map[] && job in s.live
    requires PcOf(s, 2) == Looking(job, Live)
    ensures RunTo(states', steps', s')
    ensures s'.guard == Free && s'.held == map[] && job in s'.locks && s'.live == s.live
    ensures s'.stored == s.stored[job := s.live[job]] && PcOf(s', 1) == PcOf(s, 1)
  {
    states', steps', s' := LookUp(states, steps, s, 2);
    states', steps', s' := ReadUnderLock(states', steps', s', 2);
    states', steps', s' := StoreAndLeave(states', steps', s', 2);
  }
}
